/** What every march does, whatever its solver: which cells it freezes, and that it freezes each once. */
module MarchReach {
  import opened Wrappers
  import opened Grids
  import opened NarrowBands
  import opened Marching

  ghost predicate Banded(heap: multiset<Entry>, c: Index)
  {
    exists e :: e in heap && e.cell == c
  }

  /** Nothing frozen in a is lost or changed in b, and the cells are the same. */
  ghost predicate Extends(a: Times, b: Times)
  {
    && (forall c :: c in a <==> c in b)
    && (forall c :: Frozen(a, c) ==> b[c] == a[c])
  }

  lemma OpenBefore(a: Times, b: Times, c: Index)
    requires Extends(a, b) && Open(b, c)
    ensures Open(a, c)
  {
  }

  ghost predicate New(before: Times, after: Times, c: Index)
  {
    Open(before, c) && Frozen(after, c)
  }

  /** A walk over face steps that never leaves the initially unfrozen cells. */
  ghost predicate Walk(times: Times, path: seq<Index>)
  {
    && |path| > 0
    && (forall i :: 0 <= i < |path| ==> Open(times, path[i]))
    && (forall i :: 0 <= i < |path| - 1 ==> Adjacent(path[i], path[i + 1]))
  }

  ghost predicate WalkTo(s0: State, path: seq<Index>, c: Index)
  {
    Walk(s0.times, path) && Banded(s0.heap, path[0]) && path[|path| - 1] == c
  }

  ghost predicate Reached(s0: State, c: Index)
  {
    exists path :: WalkTo(s0, path, c)
  }

  lemma {:induction false} ExecExtends(p: Problem, s0: State, pops: seq<Entry>)
    requires p.Valid() && p.InGrid(s0) && Exec(p, s0, pops).Some?
    ensures Extends(s0.times, Exec(p, s0, pops).value.times)
  {
    if pops != [] {
      ExecExtends(p, s0, pops[..|pops| - 1]);
    }
  }

  /** Later states of a run extend earlier ones: a frozen time is never written again. */
  lemma {:induction false} RunMonotone(p: Problem, s0: State, pops: seq<Entry>, i: nat, j: nat)
    requires p.Valid() && p.InGrid(s0) && i <= j <= |pops|
    requires Exec(p, s0, pops[..j]).Some?
    ensures Exec(p, s0, pops[..i]).Some?
    ensures Extends(Exec(p, s0, pops[..i]).value.times, Exec(p, s0, pops[..j]).value.times)
  {
    if i < j {
      assert pops[..j][..j - 1] == pops[..j - 1];
      RunMonotone(p, s0, pops, i, j - 1);
    }
  }

  /** Turn i of the run freezes a cell; the other turns pop an entry of a cell already frozen. */
  ghost predicate Freezes(p: Problem, s0: State, pops: seq<Entry>, i: nat)
    requires p.Valid() && p.InGrid(s0) && i < |pops|
  {
    Exec(p, s0, pops[..i]).Some? && Open(Exec(p, s0, pops[..i]).value.times, pops[i].cell)
  }

  /** No cell is frozen in two turns, and none that was frozen on entry is frozen again. */
  lemma FrozenOnce(p: Problem, s0: State, pops: seq<Entry>, i: nat, j: nat)
    requires p.Valid() && p.InGrid(s0) && Exec(p, s0, pops).Some?
    requires i < j < |pops| && Freezes(p, s0, pops, i) && Freezes(p, s0, pops, j)
    ensures pops[i].cell != pops[j].cell && Open(s0.times, pops[j].cell)
    ensures Exec(p, s0, pops).value.times[pops[i].cell] == Some(pops[i].time)
  {
    assert pops[..|pops|] == pops && pops[..0] == [];
    RunMonotone(p, s0, pops, i + 1, |pops|);
    TurnFreezes(p, s0, pops, i);
    RunMonotone(p, s0, pops, i + 1, j);
    RunMonotone(p, s0, pops, 0, j);
  }

  /**
   A turn that freezes its cell gives it the popped time and leaves every other cell as it was; any other turn changes
   none.
   */
  lemma TurnFreezes(p: Problem, s0: State, pops: seq<Entry>, i: nat)
    requires p.Valid() && p.InGrid(s0) && i < |pops| && Exec(p, s0, pops[..i + 1]).Some?
    ensures Exec(p, s0, pops[..i]).Some?
    ensures var before, after := Exec(p, s0, pops[..i]).value.times, Exec(p, s0, pops[..i + 1]).value.times;
            && (Freezes(p, s0, pops, i) ==> after == before[pops[i].cell := Some(pops[i].time)])
            && (!Freezes(p, s0, pops, i) ==> after == before)
  {
    assert pops[..i + 1][..i] == pops[..i];
  }

  /** Cells frozen by the run, or waiting in its heap, are reached from the band. */
  ghost predicate OnlyReached(s0: State, s: State)
  {
    && Extends(s0.times, s.times)
    && (forall c :: New(s0.times, s.times, c) ==> Reached(s0, c))
    && (forall e :: e in s.heap && Open(s.times, e.cell) ==> Reached(s0, e.cell))
  }

  lemma ReachedStep(s0: State, c: Index, y: Index)
    requires Reached(s0, c) && Adjacent(c, y) && Open(s0.times, y)
    ensures Reached(s0, y)
  {
    var path :| WalkTo(s0, path, c);
    assert WalkTo(s0, path + [y], y);
  }

  lemma PushedReached(p: Problem, s0: State, times: Times, c: Index)
    requires p.Valid() && Covers(p.size, times) && Frozen(times, c) && Extends(s0.times, times)
    requires Pushed(p, times, c, 2 * |c|).Some? && Reached(s0, c)
    ensures forall f :: f in Pushed(p, times, c, 2 * |c|).value ==> Reached(s0, f.cell)
  {
    PushedSound(p, times, c, 2 * |c|);
    forall f | f in Pushed(p, times, c, 2 * |c|).value
      ensures Reached(s0, f.cell)
    {
      assert SolveOf(p, times, c, f);
      OpenBefore(s0.times, times, f.cell);
      ReachedStep(s0, c, f.cell);
    }
  }

  lemma OnlyReachedStep(p: Problem, s0: State, s: State, e: Entry)
    requires p.Valid() && p.InGrid(s) && e in s.heap && Step(p, s, e).Some?
    requires OnlyReached(s0, s)
    ensures OnlyReached(s0, Step(p, s, e).value)
  {
    if Open(s.times, e.cell) {
      PushedReached(p, s0, Freeze(s.times, e.cell, e.time), e.cell);
      OnlyReachedMore(p, s0, s, e);
    }
  }

  lemma OnlyReachedMore(p: Problem, s0: State, s: State, e: Entry)
    requires p.Valid() && p.InGrid(s) && e in s.heap && Open(s.times, e.cell) && Step(p, s, e).Some?
    requires OnlyReached(s0, s)
    requires forall f :: f in Pushed(p, Freeze(s.times, e.cell, e.time), e.cell, 2 * |e.cell|).value ==>
             Reached(s0, f.cell)
    ensures OnlyReached(s0, Step(p, s, e).value)
  {
    OnlyReachedTurn(s0, s, e, Pushed(p, Freeze(s.times, e.cell, e.time), e.cell, 2 * |e.cell|).value);
  }

  lemma OnlyReachedTurn(s0: State, s: State, e: Entry, pushed: multiset<Entry>)
    requires OnlyReached(s0, s) && e in s.heap && Open(s.times, e.cell)
    requires forall f :: f in pushed ==> Reached(s0, f.cell)
    ensures OnlyReached(s0, State(Freeze(s.times, e.cell, e.time), s.heap - multiset{e} + pushed))
  {
  }

  lemma {:induction false} OnlyReachedRun(p: Problem, s0: State, pops: seq<Entry>)
    requires p.Valid() && p.InGrid(s0) && Exec(p, s0, pops).Some?
    ensures OnlyReached(s0, Exec(p, s0, pops).value)
  {
    if pops == [] {
      forall e | e in s0.heap && Open(s0.times, e.cell)
        ensures Reached(s0, e.cell)
      {
        assert WalkTo(s0, [e.cell], e.cell);
      }
    } else {
      OnlyReachedRun(p, s0, pops[..|pops| - 1]);
      OnlyReachedStep(p, s0, Exec(p, s0, pops[..|pops| - 1]).value, pops[|pops| - 1]);
    }
  }

  /** Band cells and neighbours of newly frozen cells are frozen or waiting in the heap. */
  ghost predicate Frontier(s0: State, s: State)
  {
    && Extends(s0.times, s.times)
    && (forall c :: Banded(s0.heap, c) && Open(s.times, c) ==> Banded(s.heap, c))
    && (forall x, y {:trigger New(s0.times, s.times, x), Adjacent(x, y)} ::
          New(s0.times, s.times, x) && Adjacent(x, y) && Open(s.times, y) ==> Banded(s.heap, y))
  }

  lemma BandedKept(heap: multiset<Entry>, e: Entry, more: multiset<Entry>, c: Index)
    requires Banded(heap, c) && e.cell != c
    ensures Banded(heap - multiset{e} + more, c)
  {
    var f :| f in heap && f.cell == c;
    assert f in heap - multiset{e} + more;
  }

  lemma FrontierStep(p: Problem, s0: State, s: State, e: Entry)
    requires p.Valid() && p.InGrid(s) && e in s.heap && Step(p, s, e).Some?
    requires Frontier(s0, s)
    ensures Frontier(s0, Step(p, s, e).value)
  {
    var s' := Step(p, s, e).value;
    forall y | Open(s'.times, y) && Banded(s.heap, y)
      ensures Banded(s'.heap, y)
    {
      var more := if Frozen(s.times, e.cell) then multiset{}
                  else Pushed(p, s'.times, e.cell, 2 * |e.cell|).value;
      BandedKept(s.heap, e, more, y);
      assert s.heap - multiset{e} + more == s'.heap;
    }
    forall y | Open(s.times, e.cell) && Adjacent(e.cell, y) && Open(s'.times, y)
      ensures Banded(s'.heap, y)
    {
      var f := NeighborPushed(p, s'.times, e.cell, y);
    }
    forall x, y | New(s0.times, s'.times, x) && Adjacent(x, y) && Open(s'.times, y)
      ensures Banded(s'.heap, y)
    {
      assert x == e.cell || New(s0.times, s.times, x);
    }
  }

  lemma {:induction false} FrontierRun(p: Problem, s0: State, pops: seq<Entry>)
    requires p.Valid() && p.InGrid(s0) && Exec(p, s0, pops).Some?
    ensures Frontier(s0, Exec(p, s0, pops).value)
  {
    if pops != [] {
      FrontierRun(p, s0, pops[..|pops| - 1]);
      FrontierStep(p, s0, Exec(p, s0, pops[..|pops| - 1]).value, pops[|pops| - 1]);
    }
  }

  lemma {:induction false} WalkFrozen(s0: State, s: State, path: seq<Index>, i: nat)
    requires Frontier(s0, s) && s.heap == multiset{}
    requires Walk(s0.times, path) && Banded(s0.heap, path[0]) && i < |path|
    ensures New(s0.times, s.times, path[i])
  {
    if i > 0 {
      WalkFrozen(s0, s, path, i - 1);
      assert Adjacent(path[i - 1], path[i - 1 + 1]);
    }
  }

  /** A finished march keeps the times it was given and freezes exactly the cells its band reaches. */
  lemma FreezesExactlyReached(p: Problem, s0: State, pops: seq<Entry>, times: Times)
    requires p.Valid() && p.InGrid(s0) && Exec(p, s0, pops) == Some(State(times, multiset{}))
    ensures Extends(s0.times, times)
    ensures forall c :: New(s0.times, times, c) <==> Reached(s0, c)
  {
    OnlyReachedRun(p, s0, pops);
    FrontierRun(p, s0, pops);
    forall c | Reached(s0, c)
      ensures New(s0.times, times, c)
    {
      var path :| WalkTo(s0, path, c);
      WalkFrozen(s0, State(times, multiset{}), path, |path| - 1);
    }
  }

  /** The heap holds a solve value for every reached cell with a frozen neighbour, and nothing else. */
  ghost predicate Seeded(p: Problem, s0: State)
    requires p.Valid() && p.InGrid(s0)
  {
    && (forall e :: e in s0.heap ==> Solvable(s0.times, e.cell) && p.Value(s0.times, e.cell) == Time(e.time))
    && (forall y :: Reached(s0, y) && Solvable(s0.times, y) ==> Banded(s0.heap, y))
  }

  ghost predicate NotBelow(s: State, l: real)
  {
    forall e :: e in s.heap ==> l <= e.time
  }

  lemma NotBelowMore(p: Problem, s: State, e: Entry)
    requires p.Valid() && p.InGrid(s) && IsLeast(e, s.heap) && Open(s.times, e.cell) && Step(p, s, e).Some?
    requires forall f :: f in Pushed(p, Freeze(s.times, e.cell, e.time), e.cell, 2 * |e.cell|).value ==>
             e.time <= f.time
    ensures NotBelow(Step(p, s, e).value, e.time)
  {
  }

  /** Entries are popped in non-decreasing order of time. */
  ghost predicate InOrder(pops: seq<Entry>)
  {
    forall i, j :: 0 <= i <= j < |pops| ==> pops[i].time <= pops[j].time
  }

  /** A run in order goes on in order exactly when its next entry is not below its last. */
  lemma InOrderSnoc(pops: seq<Entry>)
    requires |pops| > 1
    ensures InOrder(pops) <==>
              InOrder(pops[..|pops| - 1]) && pops[|pops| - 2].time <= pops[|pops| - 1].time
  {
    var before := pops[..|pops| - 1];
    if InOrder(before) && pops[|pops| - 2].time <= pops[|pops| - 1].time {
      forall i, j | 0 <= i <= j < |pops|
        ensures pops[i].time <= pops[j].time
      {
        assert i < |before| ==> before[i].time <= before[|before| - 1].time;
        assert j < |before| ==> before[i].time <= before[j].time;
      }
    }
  }

  /** Every turn of the run but the last keeps the order. */
  ghost predicate KeepsThrough(p: Problem, s0: State, pops: seq<Entry>)
    requires p.Valid() && p.InGrid(s0) && Exec(p, s0, pops).Some?
    decreases |pops|
  {
    |pops| <= 1
    || (KeepsThrough(p, s0, pops[..|pops| - 1])
       && NotBelow(Exec(p, s0, pops[..|pops| - 1]).value, pops[|pops| - 2].time))
  }

  lemma LeastDecides(s: State, e: Entry, l: real)
    requires IsLeast(e, s.heap)
    ensures NotBelow(s, l) <==> l <= e.time
  {
  }

  /** For any solver: the entries are popped in order exactly when every turn keeps the order. */
  lemma {:induction false} OrderedIffKept(p: Problem, s0: State, pops: seq<Entry>)
    requires p.Valid() && p.InGrid(s0) && Exec(p, s0, pops).Some?
    ensures InOrder(pops) <==> KeepsThrough(p, s0, pops)
    decreases |pops|
  {
    if |pops| > 1 {
      InOrderSnoc(pops);
      OrderedIffKept(p, s0, pops[..|pops| - 1]);
      LeastDecides(Exec(p, s0, pops[..|pops| - 1]).value, pops[|pops| - 1], pops[|pops| - 2].time);
    }
  }

  ghost predicate HeapSolvable(s: State)
  {
    forall f :: f in s.heap && Open(s.times, f.cell) ==> Solvable(s.times, f.cell)
  }

  lemma HeapSolvableStep(p: Problem, s: State, e: Entry)
    requires p.Valid() && p.InGrid(s) && e in s.heap && Step(p, s, e).Some? && HeapSolvable(s)
    ensures HeapSolvable(Step(p, s, e).value)
  {
    if Open(s.times, e.cell) {
      var times := Freeze(s.times, e.cell, e.time);
      PushedSound(p, times, e.cell, 2 * |e.cell|);
      forall f | f in s.heap && Open(times, f.cell)
        ensures Solvable(times, f.cell)
      {
        var n :| Frozen(s.times, n) && Adjacent(f.cell, n);
        assert Frozen(times, n);
      }
      forall f | f in Pushed(p, times, e.cell, 2 * |e.cell|).value
        ensures Solvable(times, f.cell)
      {
        assert SolveOf(p, times, e.cell, f);
      }
    }
  }
}
