/**
 The outcome of a march depends on the grid and on which entries are in the band, not on how often they are: entries
 that are in the band twice, or that wait for a cell frozen meanwhile, are ignored.
 */
module MarchOutcome {
  import opened Wrappers
  import opened Grids
  import opened NarrowBands
  import opened Marching
  import opened MarchReach

  /** The same grid, and the same entries for its unfrozen cells, however many of each. */
  ghost predicate Like(s: State, t: State)
  {
    s.times == t.times && forall e: Entry :: Open(s.times, e.cell) ==> (e in s.heap <==> e in t.heap)
  }

  /** The entries of a run that froze their cell, in order. */
  ghost function Froze(p: Problem, s0: State, pops: seq<Entry>): (r: seq<Entry>)
    requires p.Valid() && p.InGrid(s0) && Exec(p, s0, pops).Some?
    ensures |r| <= |pops|
    decreases |pops|
  {
    if pops == [] then []
    else
      var e, before := pops[|pops| - 1], pops[..|pops| - 1];
      Froze(p, s0, before) + if Open(Exec(p, s0, before).value.times, e.cell) then [e] else []
  }

  /** The next entry that will freeze a cell is the same. */
  lemma SameNext(s: State, t: State, e: Entry, f: Entry)
    requires Like(s, t) && IsLeast(e, s.heap) && IsLeast(f, t.heap) && Open(s.times, e.cell) && Open(t.times, f.cell)
    ensures e == f
  {
    IndexLeqTotal(e.cell, f.cell);
  }

  /** Freezing its cell succeeds from both states or from none, and leads to like states. */
  lemma FreezeLike(p: Problem, s: State, t: State, e: Entry)
    requires p.Valid() && p.InGrid(s) && p.InGrid(t) && Like(s, t) && e in s.heap && e in t.heap
    requires Open(s.times, e.cell)
    ensures Step(p, s, e).Some? <==> Step(p, t, e).Some?
    ensures Step(p, s, e).Some? ==> Like(Step(p, s, e).value, Step(p, t, e).value)
  {
    var pushed := Pushed(p, Freeze(s.times, e.cell, e.time), e.cell, 2 * |e.cell|);
    if pushed.Some? {
      FreezeEntries(s, t, e, pushed.value);
    }
  }

  lemma FreezeEntries(s: State, t: State, e: Entry, pushed: multiset<Entry>)
    requires Like(s, t) && Open(s.times, e.cell)
    ensures Like(State(Freeze(s.times, e.cell, e.time), s.heap - multiset{e} + pushed),
                 State(Freeze(t.times, e.cell, e.time), t.heap - multiset{e} + pushed))
  {
  }

  lemma FreezeBoth(p: Problem, s: State, t: State, e: Entry, f: Entry, x: seq<Entry>, y: seq<Entry>)
    requires p.Valid() && p.InGrid(s) && p.InGrid(t) && Like(s, t) && x == y
    requires IsLeast(e, s.heap) && IsLeast(f, t.heap) && Open(s.times, e.cell) && Open(t.times, f.cell)
    requires Step(p, s, e).Some? && Step(p, t, f).Some?
    ensures x + [e] == y + [f] && Like(Step(p, s, e).value, Step(p, t, f).value)
  {
    SameNext(s, t, e, f);
    FreezeLike(p, s, t, e);
  }

  /** Popping an entry of a frozen cell changes nothing that counts. */
  lemma StaleLike(p: Problem, s: State, t: State, e: Entry)
    requires p.Valid() && p.InGrid(s) && e in s.heap && Frozen(s.times, e.cell)
    ensures Step(p, s, e).Some? && (Like(s, t) <==> Like(Step(p, s, e).value, t))
  {
  }

  /** Of two runs from like states, one froze what the other did and perhaps more. */
  lemma {:induction false} OneGoesOn(p: Problem, s0: State, t0: State, a: seq<Entry>, b: seq<Entry>)
    requires p.Valid() && p.InGrid(s0) && p.InGrid(t0) && Like(s0, t0)
    requires Exec(p, s0, a).Some? && Exec(p, t0, b).Some?
    ensures Froze(p, s0, a) <= Froze(p, t0, b) || Froze(p, t0, b) <= Froze(p, s0, a)
    ensures Froze(p, s0, a) == Froze(p, t0, b) ==> Like(Exec(p, s0, a).value, Exec(p, t0, b).value)
    decreases |a| + |b|
  {
    if a == [] && b == [] {
    } else if a != [] && !LastFroze(p, s0, a) {
      OneGoesOn(p, s0, t0, a[..|a| - 1], b);
      LastStale(p, s0, a, Exec(p, t0, b).value);
    } else if b != [] && !LastFroze(p, t0, b) {
      OneGoesOn(p, s0, t0, a, b[..|b| - 1]);
      LastStale(p, t0, b, Exec(p, s0, a).value);
      LikeSymmetric(Exec(p, s0, a).value, Exec(p, t0, b).value);
      LikeSymmetric(Exec(p, s0, a).value, Exec(p, t0, b[..|b| - 1]).value);
    } else if a != [] && b != [] {
      OneGoesOn(p, s0, t0, a[..|a| - 1], b[..|b| - 1]);
      OneGoesOn(p, s0, t0, a, b[..|b| - 1]);
      OneGoesOn(p, s0, t0, a[..|a| - 1], b);
      if Froze(p, s0, a[..|a| - 1]) == Froze(p, t0, b[..|b| - 1]) {
        LastTurn(p, s0, a);
        LastTurn(p, t0, b);
        FreezeBoth(p, Exec(p, s0, a[..|a| - 1]).value, Exec(p, t0, b[..|b| - 1]).value, a[|a| - 1], b[|b| - 1],
                   Froze(p, s0, a[..|a| - 1]), Froze(p, t0, b[..|b| - 1]));
      } else {
        Comparable(Froze(p, s0, a[..|a| - 1]), a[|a| - 1], Froze(p, t0, b[..|b| - 1]), b[|b| - 1]);
      }
    }
  }

  lemma LikeSymmetric(s: State, t: State)
    ensures Like(s, t) <==> Like(t, s)
  {
  }

  /** The last turn of a run froze a cell. */
  ghost predicate LastFroze(p: Problem, s0: State, pops: seq<Entry>)
    requires p.Valid() && p.InGrid(s0) && Exec(p, s0, pops).Some? && pops != []
  {
    Open(Exec(p, s0, pops[..|pops| - 1]).value.times, pops[|pops| - 1].cell)
  }

  /** The last turn of a run. */
  lemma LastTurn(p: Problem, s0: State, pops: seq<Entry>)
    requires p.Valid() && p.InGrid(s0) && Exec(p, s0, pops).Some? && pops != []
    ensures var before, e := Exec(p, s0, pops[..|pops| - 1]), pops[|pops| - 1];
            && before.Some? && p.InGrid(before.value) && IsLeast(e, before.value.heap)
            && Exec(p, s0, pops) == Step(p, before.value, e)
               && (LastFroze(p, s0, pops) ==> Open(before.value.times, e.cell))
    ensures Froze(p, s0, pops) ==
            Froze(p, s0, pops[..|pops| - 1]) + if LastFroze(p, s0, pops) then [pops[|pops| - 1]] else []
  {
  }

  lemma LastStale(p: Problem, s0: State, pops: seq<Entry>, t: State)
    requires p.Valid() && p.InGrid(s0) && Exec(p, s0, pops).Some? && pops != [] && !LastFroze(p, s0, pops)
    ensures Froze(p, s0, pops) == Froze(p, s0, pops[..|pops| - 1])
    ensures Like(Exec(p, s0, pops[..|pops| - 1]).value, t) <==> Like(Exec(p, s0, pops).value, t)
  {
    StaleLike(p, Exec(p, s0, pops[..|pops| - 1]).value, t, pops[|pops| - 1]);
  }

  lemma TakeFromSnoc(x: seq<Entry>, more: seq<Entry>, n: nat)
    requires |more| <= 1 && n < |x + more|
    ensures n <= |x| && (x + more)[..n] == x[..n]
  {
  }

  /** Of two lists that differ before their last elements, one cannot be all of the other without its last. */
  lemma Comparable(x: seq<Entry>, e: Entry, y: seq<Entry>, f: Entry)
    requires x <= y || y <= x
    requires x != y
    requires x + [e] <= y || y <= x + [e]
    requires x <= y + [f] || y + [f] <= x
    ensures x + [e] <= y + [f] || y + [f] <= x + [e]
    ensures x + [e] != y + [f]
  {
    if x <= y {
      assert |x| < |y|;
      assert x + [e] <= y;
    } else {
      assert |y| < |x|;
      assert y + [f] <= x;
    }
  }

  /** A finished march froze all that any run from a like state freezes. */
  lemma {:induction false} FinishedIsLongest(p: Problem, s0: State, t0: State, a: seq<Entry>, times: Times,
                                             b: seq<Entry>)
    requires p.Valid() && p.InGrid(s0) && p.InGrid(t0) && Like(s0, t0)
    requires Exec(p, s0, a) == Some(State(times, multiset{})) && Exec(p, t0, b).Some?
    ensures Froze(p, t0, b) <= Froze(p, s0, a)
    decreases |b|
  {
    if b != [] {
      var before := b[..|b| - 1];
      FinishedIsLongest(p, s0, t0, a, times, before);
      OneGoesOn(p, s0, t0, a, before);
      OneGoesOn(p, s0, t0, a, b);
    }
  }

  /** The turn of a run in which it goes beyond what another one froze. */
  lemma {:induction false} GoesBeyond(p: Problem, s0: State, a: seq<Entry>, n: nat) returns (i: nat)
    requires p.Valid() && p.InGrid(s0) && Exec(p, s0, a).Some? && n < |Froze(p, s0, a)|
    ensures i < |a| && Exec(p, s0, a[..i + 1]).Some? && Exec(p, s0, a[..i]).Some?
    ensures Froze(p, s0, a[..i]) == Froze(p, s0, a)[..n] && Open(Exec(p, s0, a[..i]).value.times, a[i].cell)
    decreases |a|
  {
    LastTurn(p, s0, a);
    var before := a[..|a| - 1];
    TakeFromSnoc(Froze(p, s0, before), if LastFroze(p, s0, a) then [a[|a| - 1]] else [], n);
    if n < |Froze(p, s0, before)| {
      i := GoesBeyond(p, s0, before, n);
      PrefixOf(a, before, i);
    } else {
      i := |a| - 1;
      assert a[..i + 1] == a && LastFroze(p, s0, a);
    }
  }

  lemma PrefixOf(a: seq<Entry>, before: seq<Entry>, i: nat)
    requires a != [] && before == a[..|a| - 1] && i < |before|
    ensures a[..i] == before[..i] && a[..i + 1] == before[..i + 1] && a[i] == before[i]
  {
  }

  /** Where a finished march has passed, no run from a like state is stopped by the solver. */
  lemma NoThrow(p: Problem, s0: State, t0: State, a: seq<Entry>, times: Times, b: seq<Entry>, e: Entry)
    requires p.Valid() && p.InGrid(s0) && p.InGrid(t0) && Like(s0, t0)
    requires Exec(p, s0, a) == Some(State(times, multiset{})) && Exec(p, t0, b).Some?
    requires IsLeast(e, Exec(p, t0, b).value.heap) && Open(Exec(p, t0, b).value.times, e.cell)
    ensures Step(p, Exec(p, t0, b).value, e).Some?
  {
    var t := Exec(p, t0, b).value;
    FinishedIsLongest(p, s0, t0, a, times, b);
    if Froze(p, t0, b) == Froze(p, s0, a) {
      OneGoesOn(p, s0, t0, a, b);
      NothingLeft(State(times, multiset{}), t, e);
    } else {
      var i := GoesBeyond(p, s0, a, |Froze(p, t0, b)|);
      OneGoesOn(p, s0, t0, a[..i], b);
      TurnPassed(p, s0, a, i);
      SameNext(Exec(p, s0, a[..i]).value, t, a[i], e);
      FreezeLike(p, Exec(p, s0, a[..i]).value, t, e);
    }
  }

  lemma NothingLeft(s: State, t: State, e: Entry)
    requires s.heap == multiset{} && Like(s, t)
    ensures !(e in t.heap && Open(t.times, e.cell))
  {
  }

  lemma TurnPassed(p: Problem, s0: State, a: seq<Entry>, i: nat)
    requires p.Valid() && p.InGrid(s0) && i < |a| && Exec(p, s0, a[..i + 1]).Some?
    ensures Exec(p, s0, a[..i]).Some? && IsLeast(a[i], Exec(p, s0, a[..i]).value.heap)
    ensures Step(p, Exec(p, s0, a[..i]).value, a[i]).Some?
  {
    var b := a[..i + 1];
    assert b[..|b| - 1] == a[..i] && b[|b| - 1] == a[i];
    LastTurn(p, s0, b);
  }

  /** Two finished marches from like states leave the same grid. */
  lemma SameTimes(p: Problem, s0: State, t0: State, a: seq<Entry>, b: seq<Entry>, ta: Times, tb: Times)
    requires p.Valid() && p.InGrid(s0) && p.InGrid(t0) && Like(s0, t0)
    requires Exec(p, s0, a) == Some(State(ta, multiset{})) && Exec(p, t0, b) == Some(State(tb, multiset{}))
    ensures ta == tb
  {
    LikeSymmetric(s0, t0);
    FinishedIsLongest(p, s0, t0, a, ta, b);
    FinishedIsLongest(p, t0, s0, b, tb, a);
    OneGoesOn(p, s0, t0, a, b);
  }
}
