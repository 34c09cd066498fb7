/** The whole computation: input checks, seeds, the march inside and the march outside. */
module ArrivalTimes {
  import opened Wrappers
  import opened Grids
  import opened NarrowBands
  import opened Marching
  import opened MarchReach
  import opened NarrowBandSeeds

  /** The heap holds the solve value of every seed, and nothing else. */
  ghost predicate SeedEntries(p: Problem, times: Times, seeds: seq<Index>, heap: multiset<Entry>)
    requires p.Valid() && Covers(p.size, times)
  {
    && (forall e :: e in heap ==> e.cell in seeds && Solvable(times, e.cell) && p.Value(times, e.cell) == Time(e.time))
    && (forall c :: c in seeds ==> Banded(heap, c))
  }

  lemma SeedEntriesGrow(p: Problem, times: Times, seeds: seq<Index>, heap: multiset<Entry>, e: Entry)
    requires p.Valid() && Covers(p.size, times) && SeedEntries(p, times, seeds, heap)
    requires Solvable(times, e.cell) && p.Value(times, e.cell) == Time(e.time)
    ensures SeedEntries(p, times, seeds + [e.cell], heap + multiset{e})
  {
    forall c | c in seeds + [e.cell]
      ensures Banded(heap + multiset{e}, c)
    {
      if c in seeds {
        var f :| f in heap && f.cell == c;
        assert f in heap + multiset{e};
      } else {
        assert e in heap + multiset{e};
      }
    }
  }

  lemma SeedEntriesInGrid(p: Problem, seeds: seq<Index>, s: State)
    requires p.Valid() && Covers(p.size, s.times) && SeedEntries(p, s.times, seeds, s.heap)
    ensures p.InGrid(s)
  {
  }

  /** The first n seeds have been solved and pushed. */
  ghost predicate Initialized(p: Problem, times: Times, seeds: seq<Index>, n: nat, heap: multiset<Entry>)
    requires p.Valid() && Covers(p.size, times)
  {
    n <= |seeds| && SeedEntries(p, times, seeds[..n], heap)
  }

  lemma InitializedOneMore(p: Problem, times: Times, seeds: seq<Index>, n: nat, heap: multiset<Entry>, time: real)
    requires p.Valid() && Covers(p.size, times) && Initialized(p, times, seeds, n, heap) && n < |seeds|
    requires Solvable(times, seeds[n]) && p.Value(times, seeds[n]) == Time(time)
    ensures Initialized(p, times, seeds, n + 1, heap + multiset{Entry(time, seeds[n])})
  {
    SeedEntriesGrow(p, times, seeds[..n], heap, Entry(time, seeds[n]));
    assert seeds[..n + 1] == seeds[..n] + [seeds[n]];
  }

  lemma InitializedAll(p: Problem, times: Times, seeds: seq<Index>, heap: multiset<Entry>)
    requires p.Valid() && Covers(p.size, times) && Initialized(p, times, seeds, |seeds|, heap)
    ensures SeedEntries(p, times, seeds, heap)
  {
    assert seeds[..|seeds|] == seeds;
  }

  /** The solver throws for one of the seeds. */
  ghost predicate SeedThrows(p: Problem, times: Times, seeds: seq<Index>)
    requires p.Valid() && Covers(p.size, times)
  {
    exists s :: s in seeds && Solvable(times, s) && p.Value(times, s) == Thrown
  }

  method PushSeed(solve: Solver, grid: TimeGrid, store: NarrowBandStore, seeds: seq<Index>, n: nat) returns (ok: bool)
    requires grid.Valid() && Problem(grid.size, solve).Valid() && n < |seeds| && Solvable(grid.contents, seeds[n])
    requires Initialized(Problem(grid.size, solve), grid.contents, seeds, n, store.heap)
    modifies store
    ensures if ok then Initialized(Problem(grid.size, solve), grid.contents, seeds, n + 1, store.heap)
            else SeedThrows(Problem(grid.size, solve), grid.contents, seeds)
  {
    ghost var p := Problem(grid.size, solve);
    var contents := grid.Snapshot();
    var solved := solve(seeds[n], contents);
    assert solved == p.Value(grid.contents, seeds[n]);
    if solved.Thrown? {
      return false;
    }
    InitializedOneMore(p, grid.contents, seeds, n, store.heap, solved.time);
    store.Push(Entry(solved.time, seeds[n]));
    ok := true;
  }

  method InitializedNarrowBand(solve: Solver, grid: TimeGrid, seeds: seq<Index>) returns (ok: bool,
                               store: NarrowBandStore)
    requires grid.Valid() && Problem(grid.size, solve).Valid()
    requires forall c :: c in seeds ==> Solvable(grid.contents, c)
    ensures fresh(store)
    ensures if ok then SeedEntries(Problem(grid.size, solve), grid.contents, seeds, store.heap)
            else SeedThrows(Problem(grid.size, solve), grid.contents, seeds)
  {
    store := new NarrowBandStore();
    for i := 0 to |seeds|
      invariant Initialized(Problem(grid.size, solve), grid.contents, seeds, i, store.heap)
    {
      assert seeds[i] in seeds;
      ok := PushSeed(solve, grid, store, seeds, i);
      if !ok {
        return;
      }
    }
    InitializedAll(Problem(grid.size, solve), grid.contents, seeds, store.heap);
    ok := true;
  }

  function Scaled(multiplier: real, t: real): real
  {
    multiplier * t
  }

  /** The grid after writing the first n boundary times, multiplied, in list order. */
  ghost function SetCells(contents: Times, boundary: seq<Index>, times: seq<real>, multiplier: real, n: nat): Times
    requires n <= |boundary| == |times|
  {
    if n == 0 then contents
    else
      var before := SetCells(contents, boundary, times, multiplier, n - 1);
      before[boundary[n - 1] := Some(Scaled(multiplier, times[n - 1]))]
  }

  lemma {:induction false} SetCellsShape(contents: Times, boundary: seq<Index>, times: seq<real>, multiplier: real,
                                         n: nat)
    requires n <= |boundary| == |times|
    requires forall c :: c in boundary ==> c in contents
    ensures var r := SetCells(contents, boundary, times, multiplier, n);
            && r.Keys == contents.Keys
            && forall c :: c in r ==> if c in boundary[..n] then Frozen(r, c) else r[c] == contents[c]
  {
    if n > 0 {
      SetCellsShape(contents, boundary, times, multiplier, n - 1);
      assert boundary[..n] == boundary[..n - 1] + [boundary[n - 1]];
      assert boundary[n - 1] in boundary;
    }
  }

  lemma {:induction false} SetCellsValue(contents: Times, boundary: seq<Index>, times: seq<real>, multiplier: real,
                                         n: nat, i: nat)
    requires i < n <= |boundary| == |times| && Distinct(boundary)
    ensures var r := SetCells(contents, boundary, times, multiplier, n);
            boundary[i] in r && r[boundary[i]] == Some(Scaled(multiplier, times[i]))
  {
    if i < n - 1 {
      SetCellsValue(contents, boundary, times, multiplier, n - 1, i);
    }
  }

  /** Writes the boundary times; when asked to, it refuses a cell that is already frozen. */
  method SetBoundaryCondition(boundary: seq<Index>, times: seq<real>, multiplier: real, checkDuplicates: bool,
                              grid: TimeGrid)
    returns (ok: bool)
    requires grid.Valid() && |boundary| == |times| && forall c :: c in boundary ==> Inside(c, grid.size)
    modifies grid`contents, grid.cells
    ensures grid.Valid()
    ensures ok ==> grid.contents == SetCells(old(grid.contents), boundary, times, multiplier, |boundary|)
    ensures !checkDuplicates ==> ok
    ensures checkDuplicates && (forall c :: c in boundary ==> Open(old(grid.contents), c)) ==>
             (ok <==> Distinct(boundary))
  {
    ghost var before := grid.contents;
    for i := 0 to |boundary|
      invariant grid.Valid() && grid.contents == SetCells(before, boundary, times, multiplier, i)
      invariant checkDuplicates && (forall c :: c in boundary ==> Open(before, c)) ==> Distinct(boundary[..i])
    {
      assert boundary[i] in boundary;
      SetCellsShape(before, boundary, times, multiplier, i);
      var cell := grid.Cell(boundary[i]);
      if checkDuplicates && cell.Some? {
        return false;
      }
      assert boundary[..i + 1] == boundary[..i] + [boundary[i]];
      grid.SetCell(boundary[i], Some(Scaled(multiplier, times[i])));
    }
    assert boundary[..|boundary|] == boundary;
    ok := true;
  }

  /** Exactly the boundary cells are frozen. */
  ghost predicate BoundaryOnly(size: seq<nat>, times: Times, boundary: seq<Index>)
  {
    Covers(size, times) && forall c :: c in times ==> (Frozen(times, c) <==> c in boundary)
  }

  lemma SeedIsSolvable(size: seq<nat>, times: Times, boundary: seq<Index>, c: Index)
    requires Covers(size, times) && Seed(boundary, size, c) && Open(times, c)
    requires forall b :: b in boundary ==> Frozen(times, b)
    ensures Solvable(times, c)
  {
    var b :| b in boundary && Adjacent(c, b);
  }

  function Abs(x: int): nat
  {
    if x < 0 then -x else x
  }

  /** Number of face steps between two cells. */
  ghost function Steps(a: Index, b: Index): nat
    requires |a| == |b|
  {
    if a == [] then 0 else Abs(a[0] - b[0]) + Steps(a[1..], b[1..])
  }

  lemma {:induction false} StepsZero(a: Index, b: Index)
    requires |a| == |b| && a != b
    ensures exists k :: 0 <= k < |a| && a[k] != b[k]
  {
    if a[0] == b[0] {
      assert a == [a[0]] + a[1..] && b == [b[0]] + b[1..];
      StepsZero(a[1..], b[1..]);
      var k :| 0 <= k < |a[1..]| && a[1..][k] != b[1..][k];
      assert a[k + 1] != b[k + 1];
    }
  }

  /** One step towards b along an axis on which a and b differ. */
  function Toward(a: Index, b: Index, axis: nat): Index
    requires axis < |a| == |b|
  {
    Shift(a, axis, if a[axis] < b[axis] then 1 else -1)
  }

  lemma {:induction false} TowardCloser(a: Index, b: Index, axis: nat)
    requires axis < |a| == |b| && a[axis] != b[axis]
    ensures Steps(Toward(a, b, axis), b) < Steps(a, b)
  {
    var c := Toward(a, b, axis);
    if axis == 0 {
      assert c[1..] == a[1..];
    } else {
      assert c[1..] == Toward(a[1..], b[1..], axis - 1);
      TowardCloser(a[1..], b[1..], axis - 1);
    }
  }

  /** From a seed there is a walk over non-boundary cells to any non-boundary cell of the grid. */
  lemma {:induction false} WalkFromSeed(size: seq<nat>, times: Times, boundary: seq<Index>, c: Index, b: Index)
    returns (path: seq<Index>)
    requires BoundaryOnly(size, times, boundary) && Open(times, c)
    requires b in boundary && Inside(b, size)
    ensures Walk(times, path) && Seed(boundary, size, path[0]) && path[|path| - 1] == c
    decreases Steps(c, b)
  {
    StepsZero(c, b);
    var k :| 0 <= k < |c| && c[k] != b[k];
    var d := Toward(c, b, k);
    TowardCloser(c, b, k);
    assert AdjacentOn(c, d, k);
    AdjacentOnSymmetric(c, d, k);
    if d in boundary {
      path := [c];
    } else {
      path := WalkFromSeed(size, times, boundary, d, b);
      path := path + [c];
    }
  }

  /** t1 froze whole regions: with a cell, every cell that a face step over unfrozen cells of t0 leads to. */
  ghost predicate WholeRegions(t0: Times, t1: Times)
  {
    && (forall c :: c in t0 <==> c in t1)
    && (forall c :: Frozen(t0, c) ==> Frozen(t1, c))
    && forall a, b {:trigger New(t0, t1, a), Adjacent(a, b)} ::
         New(t0, t1, a) && Adjacent(a, b) && Open(t0, b) ==> Frozen(t1, b)
  }

  lemma MarchFreezesRegions(p: Problem, s0: State, pops: seq<Entry>, times: Times)
    requires p.Valid() && p.InGrid(s0) && Exec(p, s0, pops) == Some(State(times, multiset{}))
    ensures WholeRegions(s0.times, times)
    ensures forall c :: Banded(s0.heap, c) && Open(s0.times, c) ==> Frozen(times, c)
  {
    FreezesExactlyReached(p, s0, pops, times);
    forall a, b | New(s0.times, times, a) && Adjacent(a, b) && Open(s0.times, b)
      ensures New(s0.times, times, b)
    {
      ReachedStep(s0, a, b);
    }
    forall c | Banded(s0.heap, c) && Open(s0.times, c)
      ensures New(s0.times, times, c)
    {
      assert WalkTo(s0, [c], c);
    }
  }

  lemma {:induction false} RegionAlongWalk(t0: Times, t1: Times, path: seq<Index>, i: nat, j: nat)
    requires WholeRegions(t0, t1) && Walk(t0, path) && i < |path| && j < |path| && Frozen(t1, path[i])
    ensures Frozen(t1, path[j])
    decreases if i < j then j - i else i - j
  {
    if i < j {
      RegionAlongWalk(t0, t1, path, i, j - 1);
      assert Adjacent(path[j - 1], path[j - 1 + 1]);
      assert New(t0, t1, path[j - 1]) && Adjacent(path[j - 1], path[j]);
    } else if j < i {
      RegionAlongWalk(t0, t1, path, i, j + 1);
      assert Adjacent(path[j], path[j + 1]);
      var axis: nat :| AdjacentOn(path[j], path[j + 1], axis);
      AdjacentOnSymmetric(path[j], path[j + 1], axis);
      assert New(t0, t1, path[j + 1]) && Adjacent(path[j + 1], path[j]);
    }
  }

  /** After both marches no cell of the grid is left unfrozen. */
  lemma EverythingFrozen(size: seq<nat>, boundary: seq<Index>, outside: seq<Index>, inside: seq<Index>,
                         t0: Times, t1: Times, t2: Times, c: Index)
    requires BoundaryOnly(size, t0, boundary) && boundary != [] && forall b :: b in boundary ==> Inside(b, size)
    requires forall s :: s in outside || s in inside <==> Seed(boundary, size, s)
    requires WholeRegions(t0, t1) && forall s :: s in inside ==> Frozen(t1, s)
    requires WholeRegions(t1, t2) && forall s :: s in outside ==> Frozen(t2, s)
    requires Inside(c, size)
    ensures Frozen(t2, c)
  {
    if Open(t0, c) {
      var path := WalkFromSeed(size, t0, boundary, c, boundary[0]);
      var n := |path| - 1;
      if i :| 0 <= i < |path| && Frozen(t1, path[i]) {
        RegionAlongWalk(t0, t1, path, i, n);
      } else {
        assert Walk(t1, path);
        RegionAlongWalk(t1, t2, path, 0, n);
      }
    }
  }

  datatype Failure =
    | ZeroElementInSize | EmptyBoundary | FullGridBoundary | SizeMismatch | BoundaryOutsideGrid
    | DuplicateBoundary | SolverThrew | FrozenSeed

  /** One march: its first state, its pops, and the grid it leaves. */
  datatype MarchTrace = MarchTrace(s0: State, pops: seq<Entry>, times: Times)

  ghost function Unmarched(): MarchTrace
  {
    MarchTrace(State(map[], multiset{}), [], map[])
  }

  /** A march starts from the grid t0 with the entries of the seeds. */
  ghost predicate StartsFrom(p: Problem, t0: Times, seeds: seq<Index>, s0: State)
  {
    p.Valid() && p.InGrid(s0) && s0.times == t0 && SeedEntries(p, t0, seeds, s0.heap)
  }

  /** A finished march: it left nothing to pop. */
  ghost predicate Finished(p: Problem, t0: Times, seeds: seq<Index>, m: MarchTrace)
  {
    StartsFrom(p, t0, seeds, m.s0) && Exec(p, m.s0, m.pops) == Some(State(m.times, multiset{}))
  }

  /** A march that was stopped by a throw for a seed, in the grid it was to start from. */
  ghost predicate ThrewAtSeed(p: Problem, t0: Times, seeds: seq<Index>, m: MarchTrace)
  {
    p.Valid() && Covers(p.size, t0) && m.times == t0 && SeedThrows(p, t0, seeds)
  }

  /** A march that was stopped by a throw for an unfrozen neighbour of the cell that its last turn froze. */
  ghost predicate ThrewInTurn(p: Problem, t0: Times, seeds: seq<Index>, m: MarchTrace)
  {
    && StartsFrom(p, t0, seeds, m.s0) && m.pops != []
    && var before, e := Exec(p, m.s0, m.pops[..|m.pops| - 1]), m.pops[|m.pops| - 1];
    && before.Some? && IsLeast(e, before.value.heap) && Open(before.value.times, e.cell)
    && Covers(p.size, m.times) && m.times == Freeze(before.value.times, e.cell, e.time)
    && exists y :: Adjacent(e.cell, y) && Solvable(m.times, y) && p.Value(m.times, y) == Thrown
  }

  /** A march that the solver stopped. */
  ghost predicate Threw(p: Problem, t0: Times, seeds: seq<Index>, m: MarchTrace)
  {
    ThrewAtSeed(p, t0, seeds, m) || ThrewInTurn(p, t0, seeds, m)
  }

  lemma {:induction false} PushThrows(p: Problem, times: Times, c: Index, n: nat) returns (y: Index)
    requires p.Valid() && Covers(p.size, times) && Frozen(times, c) && n <= 2 * |c| && Pushed(p, times, c, n).None?
    ensures Adjacent(c, y) && Solvable(times, y) && p.Value(times, y) == Thrown
  {
    if Pushed(p, times, c, n - 1).None? {
      y := PushThrows(p, times, c, n - 1);
    } else {
      y := Face(c, n - 1);
      FaceAdjacent(c, n - 1);
      FaceSolvable(times, c, n - 1);
    }
  }

  /** The turn in which a march ended too early. */
  lemma MarchThrows(p: Problem, t0: Times, seeds: seq<Index>, s0: State, pops: seq<Entry>,
                    times: Times) returns (m: MarchTrace)
    requires StartsFrom(p, t0, seeds, s0) && Marched(p, s0, pops, false, times)
    ensures ThrewInTurn(p, t0, seeds, m)
  {
    var before, e := Exec(p, s0, pops[..|pops| - 1]).value, pops[|pops| - 1];
    var frozen := Freeze(before.times, e.cell, e.time);
    var y := PushThrows(p, frozen, e.cell, 2 * |e.cell|);
    m := MarchTrace(s0, pops, frozen);
  }

  /** Fills the narrow band from the seeds and marches; false when a solve throws. */
  method MarchSeeds(solve: Solver, grid: TimeGrid, seeds: seq<Index>) returns (ok: bool, ghost m: MarchTrace)
    requires grid.Valid() && Problem(grid.size, solve).Valid()
    requires forall s :: s in seeds ==> Solvable(grid.contents, s)
    modifies grid`contents, grid.cells
    ensures grid.Valid()
    ensures if ok then Finished(Problem(grid.size, solve), old(grid.contents), seeds, m) && m.times == grid.contents
            else Threw(Problem(grid.size, solve), old(grid.contents), seeds, m)
  {
    ghost var p, t0 := Problem(grid.size, solve), grid.contents;
    m := MarchTrace(State(t0, multiset{}), [], t0);
    var store: NarrowBandStore;
    ok, store := InitializedNarrowBand(solve, grid, seeds);
    if ok {
      ghost var s0, pops := State(t0, store.heap), [];
      SeedEntriesInGrid(p, seeds, s0);
      ok, pops := MarchNarrowBand(solve, store, grid);
      if ok {
        m := MarchTrace(s0, pops, grid.contents);
      } else {
        m := MarchThrows(p, t0, seeds, s0, pops, grid.contents);
      }
    }
  }

  /** How a march from the seeds ends: finished, stopped by a seed that is frozen already, or by the solver. */
  ghost predicate MarchEnds(p: Problem, t0: Times, seeds: seq<Index>, m: MarchTrace, failure: Option<Failure>,
                            times: Times)
  {
    match failure
    case None => Finished(p, t0, seeds, m) && m.times == times && !HasFrozen(t0, seeds)
    case Some(DuplicateBoundary) => true
    case Some(FrozenSeed) => HasFrozen(t0, seeds)
    case Some(SolverThrew) => Threw(p, t0, seeds, m) && !HasFrozen(t0, seeds)
    case Some(_) => false
  }

  ghost predicate HasFrozen(t: Times, seeds: seq<Index>)
  {
    exists s :: s in seeds && Frozen(t, s)
  }

  /** One march from a boundary: writes the times, then fills the narrow band and marches. */
  method MarchFrom(solve: Solver, grid: TimeGrid, boundary: seq<Index>, times: seq<real>, multiplier: real,
                   checkDuplicates: bool, seeds: seq<Index>)
    returns (failure: Option<Failure>, ghost m: MarchTrace)
    requires grid.Valid() && Problem(grid.size, solve).Valid()
    requires |boundary| == |times| && forall b :: b in boundary ==> Inside(b, grid.size)
    requires forall s :: s in seeds ==> Seed(boundary, grid.size, s)
    modifies grid`contents, grid.cells
    ensures grid.Valid()
    ensures MarchEnds(Problem(grid.size, solve), SetCells(old(grid.contents), boundary, times, multiplier, |boundary|),
                      seeds, m, failure, grid.contents)
    ensures failure == Some(DuplicateBoundary) ==> checkDuplicates
    ensures checkDuplicates && (forall c :: c in boundary ==> Open(old(grid.contents), c)) ==>
              (failure == Some(DuplicateBoundary) <==> !Distinct(boundary))
  {
    m := Unmarched();
    SetCellsShape(grid.contents, boundary, times, multiplier, |boundary|);
    assert boundary[..|boundary|] == boundary;
    var ok := SetBoundaryCondition(boundary, times, multiplier, checkDuplicates, grid);
    if !ok {
      return Some(DuplicateBoundary), m;
    }
    var frozen := AnyFrozen(grid, seeds);
    if frozen {
      return Some(FrozenSeed), m;
    }
    forall s | s in seeds
      ensures Solvable(grid.contents, s)
    {
      SeedIsSolvable(grid.size, grid.contents, boundary, s);
    }
    ok, m := MarchSeeds(solve, grid, seeds);
    failure := if ok then None else Some(SolverThrew);
  }

  method AnyFrozen(grid: TimeGrid, seeds: seq<Index>) returns (found: bool)
    requires grid.Valid() && forall s :: s in seeds ==> Inside(s, grid.size)
    ensures found <==> HasFrozen(grid.contents, seeds)
  {
    for i := 0 to |seeds|
      invariant forall s :: s in seeds[..i] ==> !Frozen(grid.contents, s)
    {
      assert seeds[i] in seeds && seeds[..i + 1] == seeds[..i] + [seeds[i]];
      var cell := grid.Cell(seeds[i]);
      if cell.Some? {
        return true;
      }
    }
    assert seeds[..|seeds|] == seeds;
    found := false;
  }

  /** The non-boundary cells frozen in t make up whole regions, and the boundary is frozen too. */
  ghost predicate RegionsClosed(size: seq<nat>, boundary: seq<Index>, t: Times)
  {
    && Covers(size, t) && (forall b :: b in boundary ==> Frozen(t, b))
    && forall a, b {:trigger Frozen(t, a), Adjacent(a, b)} ::
         Frozen(t, a) && a !in boundary && Adjacent(a, b) && Inside(b, size) && b !in boundary ==> Frozen(t, b)
  }

  lemma ClosedIffWhole(size: seq<nat>, boundary: seq<Index>, t0: Times, t1: Times)
    requires BoundaryOnly(size, t0, boundary) && forall b :: b in boundary ==> Inside(b, size)
    ensures RegionsClosed(size, boundary, t1) <==> WholeRegions(t0, t1)
  {
    if RegionsClosed(size, boundary, t1) {
      forall a, b | New(t0, t1, a) && Adjacent(a, b) && Open(t0, b)
        ensures Frozen(t1, b)
      {
        assert a !in boundary && b !in boundary;
      }
    }
    if WholeRegions(t0, t1) {
      forall a, b | Frozen(t1, a) && a !in boundary && Adjacent(a, b) && Inside(b, size) && b !in boundary
        ensures Frozen(t1, b)
      {
        assert New(t0, t1, a) && Open(t0, b);
      }
    }
  }

  ghost predicate HasTimes(t: Times, boundary: seq<Index>, times: seq<real>)
    requires |boundary| == |times|
  {
    forall i :: 0 <= i < |boundary| ==> boundary[i] in t && t[boundary[i]] == Some(times[i])
  }

  /** After the march inside and the negation: whole regions, the seeds among them, and the given boundary times. */
  ghost predicate InsideDone(size: seq<nat>, boundary: seq<Index>, times: seq<real>, inside: seq<Index>, t: Times)
    requires |boundary| == |times|
  {
    RegionsClosed(size, boundary, t) && (forall s :: s in inside ==> Frozen(t, s)) && HasTimes(t, boundary, times)
  }

  function Negated(t: Option<real>): Option<real>
  {
    if t.Some? then Some(Scaled(-1.0, t.value)) else None
  }

  ghost predicate Blank(size: seq<nat>, t: Times)
  {
    Covers(size, t) && forall c :: c in t ==> t[c].None?
  }

  lemma BlankSetCells(size: seq<nat>, t: Times, boundary: seq<Index>, times: seq<real>, multiplier: real)
    requires Blank(size, t) && |boundary| == |times| && forall b :: b in boundary ==> Inside(b, size)
    ensures BoundaryOnly(size, SetCells(t, boundary, times, multiplier, |boundary|), boundary)
  {
    SetCellsShape(t, boundary, times, multiplier, |boundary|);
    assert boundary[..|boundary|] == boundary;
  }

  lemma FinishedRegions(p: Problem, t0: Times, seeds: seq<Index>, m: MarchTrace)
    requires Finished(p, t0, seeds, m)
    ensures WholeRegions(t0, m.times) && Extends(t0, m.times) && forall s :: s in seeds ==> Frozen(m.times, s)
  {
    MarchFreezesRegions(p, m.s0, m.pops, m.times);
    FreezesExactlyReached(p, m.s0, m.pops, m.times);
  }

  lemma NegatedTwice(x: real)
    ensures Scaled(-1.0, Scaled(-1.0, x)) == x && Scaled(1.0, x) == x
  {
  }

  ghost function NegateAll(t: Times): Times
  {
    map c | c in t :: Negated(t[c])
  }

  lemma NegatedFrozen(size: seq<nat>, boundary: seq<Index>, inside: seq<Index>, t: Times)
    requires RegionsClosed(size, boundary, t) && forall s :: s in inside ==> Frozen(t, s)
    ensures RegionsClosed(size, boundary, NegateAll(t)) && forall s :: s in inside ==> Frozen(NegateAll(t), s)
  {
    assert forall c :: Frozen(NegateAll(t), c) <==> Frozen(t, c);
  }

  lemma NegatedTimes(boundary: seq<Index>, times: seq<real>, blank: Times, t: Times)
    requires |boundary| == |times| && Distinct(boundary) && forall b :: b in boundary ==> b in blank
    requires Extends(SetCells(blank, boundary, times, -1.0, |boundary|), t)
    ensures HasTimes(NegateAll(t), boundary, times)
  {
    forall i | 0 <= i < |boundary|
      ensures boundary[i] in t && Negated(t[boundary[i]]) == Some(times[i])
    {
      SetCellsValue(blank, boundary, times, -1.0, |boundary|, i);
      NegatedTwice(times[i]);
    }
  }

  lemma InsideNegated(p: Problem, boundary: seq<Index>, times: seq<real>, inside: seq<Index>, blank: Times,
                      m: MarchTrace)
    requires Blank(p.size, blank) && |boundary| == |times| && forall b :: b in boundary ==> Inside(b, p.size)
    requires Finished(p, SetCells(blank, boundary, times, -1.0, |boundary|), inside, m)
    requires Distinct(boundary)
    ensures InsideDone(p.size, boundary, times, inside, NegateAll(m.times))
  {
    var t0 := SetCells(blank, boundary, times, -1.0, |boundary|);
    BlankSetCells(p.size, blank, boundary, times, -1.0);
    FinishedRegions(p, t0, inside, m);
    ClosedIffWhole(p.size, boundary, t0, m.times);
    NegatedFrozen(p.size, boundary, inside, m.times);
    NegatedTimes(boundary, times, blank, m.times);
  }

  method NegateCells(grid: TimeGrid)
    requires grid.Valid()
    modifies grid`contents, grid.cells
    ensures grid.Valid() && grid.contents == NegateAll(old(grid.contents))
  {
    grid.Transform(Negated);
  }

  lemma NoFrozenSeed(size: seq<nat>, boundary: seq<Index>, t0: Times, seeds: seq<Index>)
    requires BoundaryOnly(size, t0, boundary) && forall s :: s in seeds ==> Seed(boundary, size, s)
    ensures !HasFrozen(t0, seeds)
  {
  }

  /** The march inside with negated boundary times, then the negation of everything computed so far. */
  method MarchInside(solve: Solver, grid: TimeGrid, boundary: seq<Index>, times: seq<real>, inside: seq<Index>)
    returns (failure: Option<Failure>, ghost m: MarchTrace)
    requires grid.Valid() && Problem(grid.size, solve).Valid() && Blank(grid.size, grid.contents)
    requires |boundary| == |times| && forall b :: b in boundary ==> Inside(b, grid.size)
    requires forall s :: s in inside ==> Seed(boundary, grid.size, s)
    modifies grid`contents, grid.cells
    ensures grid.Valid() && failure in {None, Some(DuplicateBoundary), Some(SolverThrew)}
    ensures failure == Some(DuplicateBoundary) <==> !Distinct(boundary)
    ensures failure == Some(SolverThrew) ==>
              Threw(Problem(grid.size, solve), SetCells(old(grid.contents), boundary, times, -1.0, |boundary|), inside,
                  m)
    ensures failure == None ==>
              && InsideDone(grid.size, boundary, times, inside, grid.contents)
              && grid.contents == NegateAll(m.times)
              && Finished(Problem(grid.size, solve), SetCells(old(grid.contents), boundary, times, -1.0, |boundary|),
                 inside, m)
  {
    ghost var blank := grid.contents;
    BlankSetCells(grid.size, blank, boundary, times, -1.0);
    NoFrozenSeed(grid.size, boundary, SetCells(blank, boundary, times, -1.0, |boundary|), inside);
    failure, m := MarchFrom(solve, grid, boundary, times, -1.0, true, inside);
    if failure.None? {
      InsideNegated(Problem(grid.size, solve), boundary, times, inside, blank, m);
      NegateCells(grid);
    }
  }

  /** The grid as the outside march finds it: untouched, or as the inside march left it. */
  ghost predicate BeforeOutside(size: seq<nat>, boundary: seq<Index>, times: seq<real>, inside: seq<Index>, t: Times)
    requires |boundary| == |times|
  {
    if inside == [] then Blank(size, t) else InsideDone(size, boundary, times, inside, t)
  }

  ghost predicate SeedLists(size: seq<nat>, boundary: seq<Index>, outside: seq<Index>, inside: seq<Index>)
  {
    forall s :: s in outside || s in inside <==> Seed(boundary, size, s)
  }

  ghost predicate AllFrozen(size: seq<nat>, t: Times)
  {
    Covers(size, t) && forall c :: Inside(c, size) ==> Frozen(t, c)
  }

  lemma BoundaryRewritten(size: seq<nat>, boundary: seq<Index>, times: seq<real>, inside: seq<Index>, t: Times)
    requires |boundary| == |times| && Distinct(boundary) && forall b :: b in boundary ==> Inside(b, size)
    requires BeforeOutside(size, boundary, times, inside, t)
    ensures InsideDone(size, boundary, times, inside, SetCells(t, boundary, times, 1.0, |boundary|))
  {
    var r := SetCells(t, boundary, times, 1.0, |boundary|);
    SetCellsShape(t, boundary, times, 1.0, |boundary|);
    assert boundary[..|boundary|] == boundary;
    forall i | 0 <= i < |boundary|
      ensures boundary[i] in r && r[boundary[i]] == Some(times[i])
    {
      SetCellsValue(t, boundary, times, 1.0, |boundary|, i);
      NegatedTwice(times[i]);
    }
    assert forall c :: c !in boundary ==> (Frozen(r, c) <==> Frozen(t, c));
  }

  /** t1 is the grid when the outside march starts, t2 when it ends; without outside seeds they are the same. */
  lemma BothSidesFrozen(size: seq<nat>, boundary: seq<Index>, times: seq<real>, outside: seq<Index>, inside: seq<Index>,
                        t1: Times, t2: Times)
    requires |boundary| == |times| && boundary != [] && forall b :: b in boundary ==> Inside(b, size)
    requires SeedLists(size, boundary, outside, inside) && InsideDone(size, boundary, times, inside, t1)
    requires WholeRegions(t1, t2) && Extends(t1, t2) && forall s :: s in outside ==> Frozen(t2, s)
    ensures AllFrozen(size, t2) && HasTimes(t2, boundary, times)
  {
    var blank: Times := map c | c in t1 :: None;
    var t0 := SetCells(blank, boundary, times, 1.0, |boundary|);
    BlankSetCells(size, blank, boundary, times, 1.0);
    ClosedIffWhole(size, boundary, t0, t1);
    forall c | Inside(c, size)
      ensures Frozen(t2, c)
    {
      EverythingFrozen(size, boundary, outside, inside, t0, t1, t2, c);
    }
  }

  lemma NoSeedNoRoom(size: seq<nat>, boundary: seq<Index>, times: seq<real>, t: Times)
    requires |boundary| == |times| && boundary != [] && forall b :: b in boundary ==> Inside(b, size)
    requires SeedLists(size, boundary, [], []) && Blank(size, t)
    ensures forall c :: Inside(c, size) ==> c in boundary
  {
    var t0 := SetCells(t, boundary, times, 1.0, |boundary|);
    BlankSetCells(size, t, boundary, times, 1.0);
    forall c | Inside(c, size)
      ensures c in boundary
    {
      if Open(t0, c) {
        var path := WalkFromSeed(size, t0, boundary, c, boundary[0]);
      }
    }
  }

  /** The first input check that fails, in the order they are made. */
  function InputFailure(size: seq<nat>, boundary: seq<Index>, times: seq<real>): Option<Failure>
  {
    if exists k :: 0 <= k < |size| && size[k] == 0 then Some(ZeroElementInSize)
    else if boundary == [] then Some(EmptyBoundary)
    else if |boundary| == LinearSize(size) then Some(FullGridBoundary)
    else if |boundary| != |times| then Some(SizeMismatch)
    else if exists b :: b in boundary && !Inside(b, size) then Some(BoundaryOutsideGrid)
    else None
  }

  datatype Arrival = Arrived(times: Times) | Failed(failure: Failure)

  /** The plan, the seed lists made from it, and the march from each; a march without seeds does not take place. */
  datatype Trace = Trace(plan: Plan, outside: seq<Index>, inside: seq<Index>, outer: MarchTrace, inner: MarchTrace)

  /** The seed lists are those of a plan for the boundary, which says on which side a seed is. */
  ghost predicate Planned(size: seq<nat>, boundary: seq<Index>, trace: Trace)
  {
    && PlanOf(boundary, size, trace.plan) && Sorted(trace.plan, size, boundary, trace.outside, trace.inside)
    && SeedLists(size, boundary, trace.outside, trace.inside)
  }

  ghost function BlankTimes(size: seq<nat>): Times
  {
    map c | c in Cells(size) :: None
  }

  /** The grid that the boundary times are written to before the march outside. */
  ghost function OuterGrid(size: seq<nat>, trace: Trace): Times
  {
    if trace.inside == [] then BlankTimes(size) else NegateAll(trace.inner.times)
  }

  /** One march of the computation: boundary times written with a sign, then marched from the seeds. */
  ghost predicate Marches(p: Problem, boundary: seq<Index>, times: seq<real>, sign: real, grid: Times,
                          seeds: seq<Index>,
                          m: MarchTrace)
    requires |boundary| == |times|
  {
    Finished(p, SetCells(grid, boundary, times, sign, |boundary|), seeds, m)
  }

  /** How the march outside ends, from the grid t1 with the boundary times written. */
  ghost predicate OuterEnds(p: Problem, boundary: seq<Index>, times: seq<real>, t1: Times, outside: seq<Index>,
                            m: MarchTrace, failure: Option<Failure>, t: Times)
    requires |boundary| == |times|
  {
    && (failure == Some(DuplicateBoundary) <==> !Distinct(boundary))
    && MarchEnds(p, t1, outside, m, failure, t)
    && (failure == None ==> AllFrozen(p.size, t) && HasTimes(t, boundary, times))
  }

  method OutsideMarch(solve: Solver, grid: TimeGrid, boundary: seq<Index>, times: seq<real>,
                      outside: seq<Index>, inside: seq<Index>)
    returns (failure: Option<Failure>, ghost m: MarchTrace)
    requires grid.Valid() && Problem(grid.size, solve).Valid() && boundary != []
    requires |boundary| == |times| && forall b :: b in boundary ==> Inside(b, grid.size)
    requires SeedLists(grid.size, boundary, outside, inside)
    requires BeforeOutside(grid.size, boundary, times, inside, grid.contents) && (inside != [] ==> Distinct(boundary))
    modifies grid`contents, grid.cells
    ensures grid.Valid()
    ensures OuterEnds(Problem(grid.size, solve), boundary, times,
                      SetCells(old(grid.contents), boundary, times, 1.0, |boundary|), outside, m, failure,
                          grid.contents)
  {
    ghost var p := Problem(grid.size, solve);
    ghost var before := grid.contents;
    ghost var t1 := SetCells(before, boundary, times, 1.0, |boundary|);
    failure, m := MarchFrom(solve, grid, boundary, times, 1.0, inside == [], outside);
    if failure.None? {
      BoundaryRewritten(grid.size, boundary, times, inside, before);
      FinishedRegions(p, t1, outside, m);
      BothSidesFrozen(grid.size, boundary, times, outside, inside, t1, grid.contents);
    }
  }

  /** A grid of the given size with every cell unfrozen. */
  method UnfrozenGrid(size: seq<nat>) returns (grid: TimeGrid)
    requires ValidSize(size)
    ensures grid.Valid() && fresh(grid) && fresh(grid.cells) && grid.size == size
    ensures Blank(size, grid.contents) && grid.contents == BlankTimes(size)
  {
    var n := LinearSize(size);
    var buffer := new Option<real>[n](_ => None);
    grid := new Grid<Option<real>>(size, buffer);
    UniformShows(size, buffer[..], grid.contents, None);
  }

  /** The grid once the march inside, if there is one, has been done. */
  ghost predicate InnerDone(p: Problem, boundary: seq<Index>, times: seq<real>, inside: seq<Index>, inner: MarchTrace,
                            grid: Times)
    requires |boundary| == |times|
  {
    if inside == [] then grid == BlankTimes(p.size)
    else
      && Distinct(boundary) && Marches(p, boundary, times, -1.0, BlankTimes(p.size), inside, inner)
      && InsideDone(p.size, boundary, times, inside, grid) && grid == NegateAll(inner.times)
  }

  /** The same for the march outside. */
  ghost predicate OuterDone(p: Problem, boundary: seq<Index>, times: seq<real>, outside: seq<Index>, outer: MarchTrace,
                            before: Times, grid: Times)
    requires |boundary| == |times|
  {
    if outside == [] then grid == before
    else
      && Distinct(boundary) && Marches(p, boundary, times, 1.0, before, outside, outer) && grid == outer.times
      && AllFrozen(p.size, grid) && HasTimes(grid, boundary, times)
  }

  /** What a successful computation promises. */
  ghost predicate Delivers(p: Problem, boundary: seq<Index>, times: seq<real>, trace: Trace, t: Times)
    requires |boundary| == |times|
  {
    && Planned(p.size, boundary, trace)
    && (if trace.outside == [] && trace.inside == []
        then Blank(p.size, t) && forall c :: Inside(c, p.size) ==> c in boundary
        else Distinct(boundary) && AllFrozen(p.size, t) && HasTimes(t, boundary, times))
    && (trace.inside != [] ==>
          && Marches(p, boundary, times, -1.0, BlankTimes(p.size), trace.inside, trace.inner)
          && InsideDone(p.size, boundary, times, trace.inside, NegateAll(trace.inner.times)))
    && (trace.outside != [] ==>
          Marches(p, boundary, times, 1.0, OuterGrid(p.size, trace), trace.outside, trace.outer)
              && t == trace.outer.times)
    && (trace.outside == [] && trace.inside != [] ==> t == NegateAll(trace.inner.times))
  }

  lemma AllDelivered(p: Problem, boundary: seq<Index>, times: seq<real>, trace: Trace, before: Times, t: Times)
    requires |boundary| == |times| && boundary != [] && forall b :: b in boundary ==> Inside(b, p.size)
    requires Planned(p.size, boundary, trace)
    requires InnerDone(p, boundary, times, trace.inside, trace.inner, before)
    requires OuterDone(p, boundary, times, trace.outside, trace.outer, before, t)
    ensures Delivers(p, boundary, times, trace, t)
  {
    if trace.outside == [] {
      if trace.inside == [] {
        NoSeedNoRoom(p.size, boundary, times, t);
      } else {
        BothSidesFrozen(p.size, boundary, times, trace.outside, trace.inside, t, t);
      }
    }
  }

  lemma BlankIsBefore(p: Problem, boundary: seq<Index>, times: seq<real>, inside: seq<Index>, inner: MarchTrace,
                      grid: Times)
    requires |boundary| == |times| && InnerDone(p, boundary, times, inside, inner, grid)
    ensures BeforeOutside(p.size, boundary, times, inside, grid) && (inside != [] ==> Distinct(boundary))
  {
  }

  method InsidePhase(solve: Solver, grid: TimeGrid, boundary: seq<Index>, times: seq<real>, inside: seq<Index>)
    returns (failure: Option<Failure>, ghost inner: MarchTrace)
    requires grid.Valid() && Problem(grid.size, solve).Valid() && grid.contents == BlankTimes(grid.size)
    requires |boundary| == |times| && forall b :: b in boundary ==> Inside(b, grid.size)
    requires forall s :: s in inside ==> Seed(boundary, grid.size, s)
    modifies grid`contents, grid.cells
    ensures grid.Valid() && failure in {None, Some(DuplicateBoundary), Some(SolverThrew)}
    ensures failure == None ==> InnerDone(Problem(grid.size, solve), boundary, times, inside, inner, grid.contents)
    ensures failure == Some(DuplicateBoundary) <==> inside != [] && !Distinct(boundary)
    ensures failure == Some(SolverThrew) ==> InnerThrew(Problem(grid.size, solve), boundary, times, inside, inner)
  {
    failure, inner := None, Unmarched();
    if inside != [] {
      failure, inner := MarchInside(solve, grid, boundary, times, inside);
    }
  }

  /** The solver threw in the march inside. */
  ghost predicate InnerThrew(p: Problem, boundary: seq<Index>, times: seq<real>, inside: seq<Index>, inner: MarchTrace)
    requires |boundary| == |times|
  {
    inside != [] && Threw(p, SetCells(BlankTimes(p.size), boundary, times, -1.0, |boundary|), inside, inner)
  }

  ghost predicate InnerEnded(p: Problem, boundary: seq<Index>, times: seq<real>, trace: Trace)
    requires |boundary| == |times|
  {
    InnerDone(p, boundary, times, trace.inside, trace.inner, OuterGrid(p.size, trace))
  }

  /** It threw in the march outside, after the march inside had been done. */
  ghost predicate OuterThrew(p: Problem, boundary: seq<Index>, times: seq<real>, trace: Trace)
    requires |boundary| == |times|
  {
    && trace.outside != [] && InnerEnded(p, boundary, times, trace)
    && Threw(p, SetCells(OuterGrid(p.size, trace), boundary, times, 1.0, |boundary|), trace.outside, trace.outer)
  }

  /** A walk over face steps that stays in the grid and off the boundary. */
  ghost predicate ClearWalk(size: seq<nat>, boundary: seq<Index>, path: seq<Index>)
  {
    && |path| > 0
    && (forall i :: 0 <= i < |path| ==> Inside(path[i], size) && path[i] !in boundary)
    && (forall i :: 0 <= i < |path| - 1 ==> Adjacent(path[i], path[i + 1]))
  }

  /** Such a walk leads from an inside seed to an outside seed: one component of the boundary lies inside another. */
  ghost predicate Contained(size: seq<nat>, boundary: seq<Index>, plan: Plan)
  {
    exists path :: && ClearWalk(size, boundary, path)
                   && InsideSeed(plan, size, boundary, path[0]) && OutsideSeed(plan, size, boundary, path[|path| - 1])
  }

  /** A clear walk leads to the cell from an inside seed. */
  ghost predicate Enclosed(size: seq<nat>, boundary: seq<Index>, plan: Plan, c: Index)
  {
    exists path :: && ClearWalk(size, boundary, path) && InsideSeed(plan, size, boundary, path[0])
                   && path[|path| - 1] == c
  }

  lemma ClearIsWalk(size: seq<nat>, t0: Times, boundary: seq<Index>, path: seq<Index>)
    requires BoundaryOnly(size, t0, boundary)
    ensures ClearWalk(size, boundary, path) <==> Walk(t0, path)
  {
  }

  lemma BandIsSeeds(p: Problem, t0: Times, seeds: seq<Index>, s0: State, c: Index)
    requires StartsFrom(p, t0, seeds, s0)
    ensures Banded(s0.heap, c) <==> c in seeds
  {
  }

  ghost predicate ClearTo(size: seq<nat>, boundary: seq<Index>, seeds: seq<Index>, path: seq<Index>, c: Index)
  {
    ClearWalk(size, boundary, path) && path[0] in seeds && path[|path| - 1] == c
  }

  lemma ClearIsWalkTo(p: Problem, boundary: seq<Index>, t0: Times, seeds: seq<Index>, s0: State, path: seq<Index>,
                      c: Index)
    requires StartsFrom(p, t0, seeds, s0) && BoundaryOnly(p.size, t0, boundary)
    ensures ClearTo(p.size, boundary, seeds, path, c) <==> WalkTo(s0, path, c)
  {
    ClearIsWalk(p.size, t0, boundary, path);
    if path != [] {
      BandIsSeeds(p, t0, seeds, s0, path[0]);
    }
  }

  /** A finished march froze a cell off the boundary exactly when a clear walk leads to it from a seed. */
  lemma FrozenIffClear(p: Problem, boundary: seq<Index>, t0: Times, seeds: seq<Index>, m: MarchTrace, c: Index)
    requires Finished(p, t0, seeds, m) && BoundaryOnly(p.size, t0, boundary) && Inside(c, p.size) && c !in boundary
    ensures Frozen(m.times, c) <==> exists path :: ClearTo(p.size, boundary, seeds, path, c)
  {
    FreezesExactlyReached(p, m.s0, m.pops, m.times);
    assert Frozen(m.times, c) <==> New(t0, m.times, c);
    if path :| WalkTo(m.s0, path, c) {
      ClearIsWalkTo(p, boundary, t0, seeds, m.s0, path, c);
    }
    if path :| ClearTo(p.size, boundary, seeds, path, c) {
      ClearIsWalkTo(p, boundary, t0, seeds, m.s0, path, c);
    }
  }

  /** The march inside freezes just the enclosed cells, besides the boundary. */
  lemma InnerFreezesEnclosed(p: Problem, boundary: seq<Index>, t0: Times, trace: Trace, c: Index)
    requires Finished(p, t0, trace.inside, trace.inner) && BoundaryOnly(p.size, t0, boundary)
    requires Planned(p.size, boundary, trace) && Inside(c, p.size) && c !in boundary
    ensures Frozen(trace.inner.times, c) <==> Enclosed(p.size, boundary, trace.plan, c)
  {
    FrozenIffClear(p, boundary, t0, trace.inside, trace.inner, c);
    if path :| ClearTo(p.size, boundary, trace.inside, path, c) {
      assert InsideSeed(trace.plan, p.size, boundary, path[0]);
    }
    if Enclosed(p.size, boundary, trace.plan, c) {
      var path :| && ClearWalk(p.size, boundary, path) && InsideSeed(trace.plan, p.size, boundary, path[0])
                  && path[|path| - 1] == c;
      assert ClearTo(p.size, boundary, trace.inside, path, c);
    }
  }

  /** The march inside freezes an outside seed exactly when the seeds are contained in one another. */
  lemma InnerFreezesIff(p: Problem, boundary: seq<Index>, t0: Times, trace: Trace)
    requires Finished(p, t0, trace.inside, trace.inner) && BoundaryOnly(p.size, t0, boundary)
    requires Planned(p.size, boundary, trace)
    ensures HasFrozen(trace.inner.times, trace.outside) <==> Contained(p.size, boundary, trace.plan)
  {
    if HasFrozen(trace.inner.times, trace.outside) {
      var s :| s in trace.outside && Frozen(trace.inner.times, s);
      FrozenIffClear(p, boundary, t0, trace.inside, trace.inner, s);
      var path :| ClearTo(p.size, boundary, trace.inside, path, s);
    }
    if Contained(p.size, boundary, trace.plan) {
      var path :| && ClearWalk(p.size, boundary, path) && InsideSeed(trace.plan, p.size, boundary, path[0])
                  && OutsideSeed(trace.plan, p.size, boundary, path[|path| - 1]);
      var s := path[|path| - 1];
      assert ClearTo(p.size, boundary, trace.inside, path, s);
      FrozenIffClear(p, boundary, t0, trace.inside, trace.inner, s);
    }
  }

  /** So the march outside starts with a frozen seed in just that case. */
  lemma ContainedIff(p: Problem, boundary: seq<Index>, times: seq<real>, trace: Trace)
    requires |boundary| == |times| && forall b :: b in boundary ==> Inside(b, p.size)
    requires Planned(p.size, boundary, trace)
    requires InnerDone(p, boundary, times, trace.inside, trace.inner, OuterGrid(p.size, trace))
    ensures HasFrozen(SetCells(OuterGrid(p.size, trace), boundary, times, 1.0, |boundary|), trace.outside) <==>
              Contained(p.size, boundary, trace.plan)
  {
    var grid := OuterGrid(p.size, trace);
    var t1 := SetCells(grid, boundary, times, 1.0, |boundary|);
    if trace.inside == [] {
      BlankSetCells(p.size, grid, boundary, times, 1.0);
      NoFrozenSeed(p.size, boundary, t1, trace.outside);
    } else {
      BlankSetCells(p.size, BlankTimes(p.size), boundary, times, -1.0);
      InnerFreezesIff(p, boundary, SetCells(BlankTimes(p.size), boundary, times, -1.0, |boundary|), trace);
      SeedsKeptOpen(p.size, boundary, times, trace.inner.times, trace.outside);
    }
  }

  /** Negating a grid and writing the boundary times freezes no seed. */
  lemma SeedsKeptOpen(size: seq<nat>, boundary: seq<Index>, times: seq<real>, t: Times, seeds: seq<Index>)
    requires |boundary| == |times| && Covers(size, t) && forall b :: b in boundary ==> Inside(b, size)
    requires forall s :: s in seeds ==> Seed(boundary, size, s)
    ensures HasFrozen(SetCells(NegateAll(t), boundary, times, 1.0, |boundary|), seeds) <==> HasFrozen(t, seeds)
  {
    var t1 := SetCells(NegateAll(t), boundary, times, 1.0, |boundary|);
    SetCellsShape(NegateAll(t), boundary, times, 1.0, |boundary|);
    assert boundary[..|boundary|] == boundary;
    forall s | s in seeds
      ensures Frozen(t1, s) <==> Frozen(t, s)
    {
      assert Seed(boundary, size, s);
      assert t1[s] == Negated(t[s]);
    }
  }

  /** Why there is no result. */
  ghost predicate FailsFor(p: Problem, boundary: seq<Index>, times: seq<real>, trace: Trace, f: Failure)
    requires |boundary| == |times|
  {
    && Planned(p.size, boundary, trace) && (trace.inside != [] || trace.outside != [])
    && match f
       case DuplicateBoundary => !Distinct(boundary)
       case FrozenSeed => Distinct(boundary) && Contained(p.size, boundary, trace.plan)
           && InnerEnded(p, boundary, times, trace)
       case SolverThrew =>
         && Distinct(boundary)
         && (|| InnerThrew(p, boundary, times, trace.inside, trace.inner)
             || (OuterThrew(p, boundary, times, trace) && !Contained(p.size, boundary, trace.plan)))
       case _ => false
  }

  /** What a computation whose input was not rejected gives. */
  ghost predicate Outcome(p: Problem, boundary: seq<Index>, times: seq<real>, trace: Trace, r: Arrival)
    requires |boundary| == |times|
  {
    match r
    case Arrived(t) => Delivers(p, boundary, times, trace, t) && !Contained(p.size, boundary, trace.plan)
    case Failed(f) => FailsFor(p, boundary, times, trace, f)
  }

  /** What the march outside makes of the grid that the march inside has left. */
  ghost predicate OuterResult(p: Problem, boundary: seq<Index>, times: seq<real>, trace: Trace,
                              failure: Option<Failure>, t: Times)
    requires |boundary| == |times|
  {
    match failure
    case None =>
      && OuterDone(p, boundary, times, trace.outside, trace.outer, OuterGrid(p.size, trace), t)
      && !Contained(p.size, boundary, trace.plan)
    case Some(f) => FailsFor(p, boundary, times, trace, f)
  }

  lemma OuterResulted(p: Problem, boundary: seq<Index>, times: seq<real>, trace: Trace, failure: Option<Failure>,
                      t: Times)
    requires |boundary| == |times| && forall b :: b in boundary ==> Inside(b, p.size)
    requires Planned(p.size, boundary, trace) && trace.outside != []
    requires InnerDone(p, boundary, times, trace.inside, trace.inner, OuterGrid(p.size, trace))
    requires OuterEnds(p, boundary, times, SetCells(OuterGrid(p.size, trace), boundary, times, 1.0, |boundary|),
                       trace.outside, trace.outer, failure, t)
    ensures OuterResult(p, boundary, times, trace, failure, t)
  {
    ContainedIff(p, boundary, times, trace);
  }

  method OutsidePhase(solve: Solver, grid: TimeGrid, boundary: seq<Index>, times: seq<real>, outside: seq<Index>,
                      inside: seq<Index>, ghost trace0: Trace)
    returns (failure: Option<Failure>, ghost trace: Trace)
    requires grid.Valid() && Problem(grid.size, solve).Valid() && boundary != []
    requires |boundary| == |times| && forall b :: b in boundary ==> Inside(b, grid.size)
    requires Planned(grid.size, boundary, trace0) && trace0.outside == outside && trace0.inside == inside
    requires grid.contents == OuterGrid(grid.size, trace0)
    requires InnerEnded(Problem(grid.size, solve), boundary, times, trace0)
    modifies grid`contents, grid.cells
    ensures grid.Valid() && trace == trace0.(outer := trace.outer)
    ensures OuterResult(Problem(grid.size, solve), boundary, times, trace, failure, grid.contents)
    ensures failure.Some? || outside != [] || grid.contents == old(grid.contents)
  {
    failure, trace := None, trace0;
    if outside != [] {
      BlankIsBefore(Problem(grid.size, solve), boundary, times, inside, trace.inner, grid.contents);
      ghost var m;
      failure, m := OutsideMarch(solve, grid, boundary, times, outside, inside);
      trace := trace.(outer := m);
      OuterResulted(Problem(grid.size, solve), boundary, times, trace, failure, grid.contents);
    } else {
      NothingContained(grid.size, boundary, trace);
    }
  }

  lemma NothingContained(size: seq<nat>, boundary: seq<Index>, trace: Trace)
    requires Planned(size, boundary, trace) && trace.outside == []
    ensures !Contained(size, boundary, trace.plan)
  {
    assert forall c :: OutsideSeed(trace.plan, size, boundary, c) ==> c in trace.outside;
  }

  method ArrivalTime(solve: Solver, size: seq<nat>, boundary: seq<Index>, times: seq<real>)
    returns (r: Arrival, ghost trace: Trace)
    requires ValidSize(size) && Problem(size, solve).Valid() && boundary != []
    requires |boundary| == |times| && forall b :: b in boundary ==> Inside(b, size)
    ensures Outcome(Problem(size, solve), boundary, times, trace, r)
  {
    ghost var plan;
    var outside, inside;
    outside, inside, plan := OutsideInsideNarrowBandIndices(boundary, size);
    var grid := UnfrozenGrid(size);
    var failure;
    ghost var inner;
    failure, inner := InsidePhase(solve, grid, boundary, times, inside);
    trace := Trace(plan, outside, inside, Unmarched(), inner);
    if failure.Some? {
      return Failed(failure.value), trace;
    }
    ghost var before := grid.contents;
    failure, trace := OutsidePhase(solve, grid, boundary, times, outside, inside, trace);
    if failure.Some? {
      return Failed(failure.value), trace;
    }
    AllDelivered(Problem(size, solve), boundary, times, trace, before, grid.contents);
    var contents := grid.Snapshot();
    r := Arrived(contents);
  }

  /** Before the input is accepted there is no plan and no march. */
  ghost function NoTrace(): Trace
  {
    Trace(Plan([], [], [], map[], []), [], [], Unmarched(), Unmarched())
  }

  /**
   Signed arrival times for a whole grid. A rejected input gives the first failing check. Otherwise,
   as long as some cell is not boundary, a successful result freezes every cell of the grid and keeps
   the boundary times; it is made of one complete march from each list of seeds that is not empty, and the plan of
   the bands around the boundary says which seeds are in which list. There is no result when the boundary has a
   duplicate and a seed beside it, when a clear walk leads from an inside seed to an outside one, or when the solver
   throws for a seed or for a neighbour of a cell just frozen.
   */
  method SignedArrivalTime(solve: Solver, size: seq<nat>, boundary: seq<Index>, times: seq<real>)
    returns (r: Arrival, ghost trace: Trace)
    requires |size| >= 2 && (ValidSize(size) ==> Problem(size, solve).Valid())
    ensures InputFailure(size, boundary, times).Some? ==> r == Failed(InputFailure(size, boundary, times).value)
    ensures InputFailure(size, boundary, times).None? ==> Outcome(Problem(size, solve), boundary, times, trace, r)
  {
    trace := NoTrace();
    if InputFailure(size, boundary, times).Some? {
      return Failed(InputFailure(size, boundary, times).value), trace;
    }
    r, trace := ArrivalTime(solve, size, boundary, times);
  }
}
