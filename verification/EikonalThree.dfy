/**
 In three dimensions the order of freezing can break: a very late boundary time makes the equation
 unsolvable, the one-axis fallback hides the other axes, and when the late axis is lowered the new
 root falls below the time just frozen. A complete run on a 2 x 2 x 3 grid shows it.
 */
module EikonalThree {
  import opened Wrappers
  import opened Grids
  import opened NarrowBands
  import opened Marching
  import opened MarchReach
  import opened Upwind
  import opened Distance
  import opened Eikonal
  import opened EikonalCausal
  import opened EikonalUpwind
  import opened EikonalMarch

  const UNIT := [1.0, 1.0, 1.0]
  const SIZE: seq<nat> := [2, 2, 3]
  const X: Index := [0, 0, 0]
  const Y: Index := [0, 0, 1]

  lemma UnitSpacing()
    ensures ValidSpacing(UNIT) && InverseSquared(1.0) == 1.0
  {
  }

  /** The estimate for three unit axes at unit speed, with the sums written out. */
  lemma UnitEstimate(sqrt: real -> real, ms: seq<Option<real>>)
    requires |ms| == 3
    ensures ValidSpacing(UNIT)
    ensures Count(ms, 3) == (if ms[0].Some? then 1 else 0) + (if ms[1].Some? then 1 else 0) +
             (if ms[2].Some? then 1 else 0)
    ensures Q0(ms, UNIT, 3) == T0(ms[0], 1.0) + T0(ms[1], 1.0) + T0(ms[2], 1.0)
    ensures Q1(ms, UNIT, 3) == T1(ms[0], 1.0) + T1(ms[1], 1.0) + T1(ms[2], 1.0)
    ensures Q2(ms, UNIT, 3) == T2(ms[0], 1.0) + T2(ms[1], 1.0) + T2(ms[2], 1.0)
  {
    assert Count(ms, 1) == Count(ms, 0) + (if ms[0].Some? then 1 else 0);
    assert Count(ms, 2) == Count(ms, 1) + (if ms[1].Some? then 1 else 0);
    assert Q0(ms, UNIT, 1) == Q0(ms, UNIT, 0) + T0(ms[0], 1.0);
    assert Q0(ms, UNIT, 2) == Q0(ms, UNIT, 1) + T0(ms[1], 1.0);
    assert Q1(ms, UNIT, 1) == Q1(ms, UNIT, 0) + T1(ms[0], 1.0);
    assert Q1(ms, UNIT, 2) == Q1(ms, UNIT, 1) + T1(ms[1], 1.0);
    assert Q2(ms, UNIT, 1) == Q2(ms, UNIT, 0) + T2(ms[0], 1.0);
    assert Q2(ms, UNIT, 2) == Q2(ms, UNIT, 1) + T2(ms[1], 1.0);
  }

  lemma UnitOneAxis(ms: seq<Option<real>>)
    requires |ms| == 3 && ms[0] == Some(0.0) && (ms[1].Some? ==> ms[1].value >= 0.0)
    requires (ms[2].Some? ==> ms[2].value >= 0.0)
    ensures ValidSpacing(UNIT) && OneAxis(ms, UNIT, 1.0, 3) == Some(1.0)
  {
    assert OneAxis(ms, UNIT, 1.0, 1) == Some(1.0);
    assert OneAxis(ms, UNIT, 1.0, 2) == Some(1.0);
  }

  /** The first estimates: both cells see the time 0 on the first axis and nothing else they can use. */
  lemma HiddenAxes(sqrt: real -> real, ms: seq<Option<real>>)
    requires ms == [Some(0.0), Some(4.0 / 3.0), Some(100.0)] || ms == [Some(0.0), Some(100.0), None]
    ensures ValidSpacing(UNIT) && EikonalSolve(sqrt, true, UNIT, 1.0, ms) == Time(1.0)
  {
    UnitSpacing();
    UnitEstimate(sqrt, ms);
    UnitOneAxis(ms);
  }

  /** The time 1 that the fallback gives is no solution: at it the slopes add up to far more than 1. */
  lemma FallbackIsNoSolution(sqrt: real -> real)
    ensures ValidSpacing(UNIT)
    ensures var ms := [Some(0.0), Some(4.0 / 3.0), Some(100.0)];
            && EikonalSolve(sqrt, true, UNIT, 1.0, ms) == Time(1.0)
            && Slopes(ms, UNIT, 1.0, 3) > InverseSquared(1.0) && !RootUsable(true, UNIT, 1.0, ms)
  {
    var ms := [Some(0.0), Some(4.0 / 3.0), Some(100.0)];
    UnitSpacing();
    UnitEstimate(sqrt, ms);
    HiddenAxes(sqrt, ms);
    SlopesQuadratic(ms, UNIT, 1.0, 3);
    assert Q1(ms, UNIT, 3) == -608.0 / 3.0 && Q2(ms, UNIT, 3) == 3.0 && Q0(ms, UNIT, 3) == 10000.0 + 16.0 / 9.0;
  }

  /** Once the third axis drops to 1 the equation has the root 8/9. */
  lemma LoweredAxis(sqrt: real -> real)
    requires ExactSqrt(sqrt)
    ensures ValidSpacing(UNIT)
    ensures EikonalSolve(sqrt, true, UNIT, 1.0, [Some(0.0), Some(4.0 / 3.0), Some(1.0)]) == Time(8.0 / 9.0)
  {
    UnitSpacing();
    var ms := [Some(0.0), Some(4.0 / 3.0), Some(1.0)];
    UnitEstimate(sqrt, ms);
    assert Q1(ms, UNIT, 3) == -14.0 / 3.0 && Q2(ms, UNIT, 3) == 3.0;
    assert -1.0 + Q0(ms, UNIT, 3) == 16.0 / 9.0;
    var q0, q1, q2 := -1.0 + Q0(ms, UNIT, 3), Q1(ms, UNIT, 3), Q2(ms, UNIT, 3);
    assert q1 * q1 - 4.0 * q2 * q0 == 4.0 / 9.0;
    var s := sqrt(4.0 / 9.0);
    SquareCompare(s, 2.0 / 3.0);
    SquareCompare(2.0 / 3.0, s);
    assert Root(sqrt, UNIT, 1.0, ms) == Some((14.0 / 3.0 + 2.0 / 3.0) / 6.0);
  }

  /** That root lies below two of the neighbours it counts, so it does not solve the upwind form. */
  lemma RootIsNotUpwind(sqrt: real -> real)
    requires ExactSqrt(sqrt)
    ensures ValidSpacing(UNIT)
    ensures var ms := [Some(0.0), Some(4.0 / 3.0), Some(1.0)];
            && EikonalSolve(sqrt, true, UNIT, 1.0, ms) == Time(8.0 / 9.0)
            && WindSlopes(ms, UNIT, 8.0 / 9.0, 3) < InverseSquared(1.0)
  {
    UnitSpacing();
    LoweredAxis(sqrt);
    var ms := [Some(0.0), Some(4.0 / 3.0), Some(1.0)];
    assert WindSlopes(ms, UNIT, 8.0 / 9.0, 1) == 64.0 / 81.0;
    assert WindSlopes(ms, UNIT, 8.0 / 9.0, 2) == 64.0 / 81.0;
  }

  /** The boundary: 0 on the far plane, 4/3 beside Y, and 100 elsewhere; X and Y are unfrozen. */
  function BoundaryTime(c: Index): Option<real>
    requires |c| == 3
  {
    if c == X || c == Y then None
    else if c[0] == 1 then Some(0.0)
    else if c == [0, 1, 1] then Some(4.0 / 3.0)
    else Some(100.0)
  }

  ghost predicate IsBoundary(t: Times)
  {
    Covers(SIZE, t) && forall c :: c in t ==> |c| == 3 && t[c] == BoundaryTime(c)
  }

  lemma TimeAtBoundary(t: Times, c: Index)
    requires IsBoundary(t) && |c| == 3
    ensures TimeAt(t, c) == if Inside(c, SIZE) then BoundaryTime(c) else None
  {
  }

  lemma SeqOfThree(ms: seq<Option<real>>, a: Option<real>, b: Option<real>, c: Option<real>)
    requires |ms| == 3 && ms[0] == a && ms[1] == b && ms[2] == c
    ensures ms == [a, b, c]
  {
  }

  lemma FacesOfX()
    ensures Face(X, 0) == [-1, 0, 0] && Face(X, 1) == [1, 0, 0] && Face(X, 2) == [0, -1, 0]
    ensures Face(X, 3) == [0, 1, 0] && Face(X, 4) == [0, 0, -1] && Face(X, 5) == Y
  {
  }

  lemma FacesOfY()
    ensures Face(Y, 0) == [-1, 0, 1] && Face(Y, 1) == [1, 0, 1] && Face(Y, 2) == [0, -1, 1]
    ensures Face(Y, 3) == [0, 1, 1] && Face(Y, 4) == X && Face(Y, 5) == [0, 0, 2]
  {
  }

  lemma AxisMinByFaces(times: Times, c: Index, axis: nat)
    requires axis < |c|
    ensures AxisMin(times, c, axis) == Smaller(TimeAt(times, Face(c, 2 * axis)), TimeAt(times, Face(c, 2 * axis + 1)))
  {
  }

  /** The boundary times, none outside the grid. */
  function TimeOn(c: Index): Option<real>
    requires |c| == 3
  {
    if Inside(c, SIZE) then BoundaryTime(c) else None
  }

  lemma StencilAxis(t: Times, c: Index, axis: nat, low: Index, high: Index)
    requires IsBoundary(t) && axis < |c| && |low| == 3 && |high| == 3
    requires Face(c, 2 * axis) == low && Face(c, 2 * axis + 1) == high
    ensures Minima(t, c)[axis] == Smaller(TimeOn(low), TimeOn(high))
  {
    AxisMinByFaces(t, c, axis);
    TimeAtBoundary(t, low);
    TimeAtBoundary(t, high);
  }

  lemma TimesAroundX()
    ensures TimeOn([-1, 0, 0]) == TimeOn([0, -1, 0]) == TimeOn([0, 0, -1]) == TimeOn(Y) == None
    ensures TimeOn([1, 0, 0]) == Some(0.0) && TimeOn([0, 1, 0]) == Some(100.0)
  {
  }

  lemma TimesAroundY()
    ensures TimeOn([-1, 0, 1]) == TimeOn([0, -1, 1]) == TimeOn(X) == None
    ensures TimeOn([1, 0, 1]) == Some(0.0) && TimeOn([0, 1, 1]) == Some(4.0 / 3.0) && TimeOn([0, 0, 2]) == Some(100.0)
  {
  }

  lemma StencilOfX(t: Times)
    requires IsBoundary(t)
    ensures Minima(t, X) == [Some(0.0), Some(100.0), None]
  {
    FacesOfX();
    StencilAxis(t, X, 0, [-1, 0, 0], [1, 0, 0]);
    StencilAxis(t, X, 1, [0, -1, 0], [0, 1, 0]);
    StencilAxis(t, X, 2, [0, 0, -1], Y);
    TimesAroundX();
    SeqOfThree(Minima(t, X), Some(0.0), Some(100.0), None);
  }

  lemma StencilOfY(t: Times)
    requires IsBoundary(t)
    ensures Minima(t, Y) == [Some(0.0), Some(4.0 / 3.0), Some(100.0)]
  {
    FacesOfY();
    StencilAxis(t, Y, 0, [-1, 0, 1], [1, 0, 1]);
    StencilAxis(t, Y, 1, [0, -1, 1], [0, 1, 1]);
    StencilAxis(t, Y, 2, X, [0, 0, 2]);
    TimesAroundY();
    SeqOfThree(Minima(t, Y), Some(0.0), Some(4.0 / 3.0), Some(100.0));
  }

  lemma YBehindX()
    ensures Y == Shift(X, 2, 1) && AdjacentOn(X, Y, 2)
  {
    assert Y == Shift(X, 2, 1);
  }

  lemma StencilLowered(t: Times)
    requires IsBoundary(t)
    ensures Minima(Freeze(t, X, 1.0), Y) == [Some(0.0), Some(4.0 / 3.0), Some(1.0)]
  {
    StencilOfY(t);
    YBehindX();
    assert Inside(X, SIZE);
    MinimaLowered(t, X, 1.0, Y, 2);
  }

  lemma {:induction false} PushedNothing(p: Problem, times: Times, c: Index, n: nat)
    requires p.Valid() && Covers(p.size, times) && Frozen(times, c) && n <= 2 * |c|
    requires forall k: nat :: k < n ==> !Open(times, Face(c, k))
    ensures Pushed(p, times, c, n) == Some(multiset{})
  {
    if n > 0 {
      PushedNothing(p, times, c, n - 1);
    }
  }

  /** Unit spacing and speed, with the fallback enabled. */
  ghost predicate Unit3(m: Medium)
  {
    m.Valid(SIZE) && m.fallback && m.h == UNIT && m.speed(X) == 1.0 && m.speed(Y) == 1.0
  }

  lemma OpenIsXOrY(t: Times, c: Index)
    requires IsBoundary(t)
    ensures Open(t, c) <==> c == X || c == Y
  {
    assert Inside(X, SIZE) && Inside(Y, SIZE);
  }

  lemma SolvableAtStart(t: Times)
    requires IsBoundary(t)
    ensures Solvable(t, X) && Solvable(t, Y)
  {
    OpenIsXOrY(t, X);
    OpenIsXOrY(t, Y);
    SolvableBy(t, X);
    SolvableBy(t, Y);
  }

  lemma SolvableBy(t: Times, c: Index)
    requires IsBoundary(t) && Open(t, c) && |c| == 3 && Inside(c, SIZE) && c[0] == 0
    ensures Solvable(t, c)
  {
    var n := Shift(c, 0, 1);
    assert n[0] == 1 && Inside(n, SIZE);
    TimeAtBoundary(t, n);
    assert AdjacentOn(c, n, 0);
    assert Frozen(t, n) && Adjacent(c, n);
  }

  lemma ValuesAtStart(m: Medium, t: Times)
    requires Unit3(m) && IsBoundary(t) && m.ToProblem(SIZE).Valid() && Solvable(t, X) && Solvable(t, Y)
    ensures m.ToProblem(SIZE).Value(t, X) == Time(1.0) && m.ToProblem(SIZE).Value(t, Y) == Time(1.0)
  {
    StencilOfX(t);
    StencilOfY(t);
    HiddenAxes(m.sqrt, Minima(t, X));
    HiddenAxes(m.sqrt, Minima(t, Y));
    ValueIsSolve(m, SIZE, t, X);
    ValueIsSolve(m, SIZE, t, Y);
  }

  ghost function Start(t: Times): State
  {
    State(t, multiset{Entry(1.0, X), Entry(1.0, Y)})
  }

  lemma StartEntries(t: Times, e: Entry)
    ensures e in Start(t).heap <==> e == Entry(1.0, X) || e == Entry(1.0, Y)
  {
  }

  /** The solve values that the run meets. */
  ghost predicate Meets(p: Problem, t: Times)
  {
    && p.Valid() && p.size == SIZE && IsBoundary(t)
    && Covers(SIZE, Freeze(t, X, 1.0))
    && Solvable(t, X) && p.Value(t, X) == Time(1.0)
    && Solvable(t, Y) && p.Value(t, Y) == Time(1.0)
    && Solvable(Freeze(t, X, 1.0), Y) && p.Value(Freeze(t, X, 1.0), Y) == Time(8.0 / 9.0)
  }

  lemma UnitMeets(m: Medium, t: Times)
    requires Unit3(m) && IsBoundary(t)
    ensures Meets(m.ToProblem(SIZE), t)
  {
    ProblemValid(m, SIZE);
    SolvableAtStart(t);
    ValuesAtStart(m, t);
    LoweredIsSolvable(t);
    StencilLowered(t);
    LoweredAxis(m.sqrt);
    ValueIsSolve(m, SIZE, Freeze(t, X, 1.0), Y);
  }

  lemma LoweredIsSolvable(t: Times)
    requires IsBoundary(t)
    ensures Covers(SIZE, Freeze(t, X, 1.0)) && Solvable(Freeze(t, X, 1.0), Y)
  {
    FacesOfX();
    OpenIsXOrY(t, X);
    OpenIsXOrY(t, Y);
    FaceSolvable(Freeze(t, X, 1.0), X, 5);
  }

  lemma StartIsSeeded(p: Problem, t: Times)
    requires Meets(p, t)
    ensures p.InGrid(Start(t)) && Seeded(p, Start(t))
  {
    forall e | e in Start(t).heap
      ensures Solvable(t, e.cell) && p.Value(t, e.cell) == Time(e.time)
    {
      StartEntries(t, e);
    }
    forall y | Reached(Start(t), y) && Solvable(t, y)
      ensures Banded(Start(t).heap, y)
    {
      OpenIsXOrY(t, y);
      StartEntries(t, Entry(1.0, y));
    }
  }

  /** Freezing X pushes one entry: Y at 8/9. */
  lemma ClosedFaces(t: Times, u: Times)
    requires IsBoundary(t) && u == Freeze(t, X, 1.0)
    ensures forall k: nat :: k < 5 ==> !Open(u, Face(X, k))
  {
    FacesOfX();
    forall k: nat | k < 5
      ensures !Open(u, Face(X, k))
    {
      OpenIsXOrY(t, Face(X, k));
    }
  }

  lemma PushedForX(p: Problem, t: Times)
    requires Meets(p, t)
    ensures var u := Freeze(t, X, 1.0);
            Frozen(u, X) && Pushed(p, u, X, 6) == Some(multiset{Entry(8.0 / 9.0, Y)})
  {
    var u := Freeze(t, X, 1.0);
    FacesOfX();
    ClosedFaces(t, u);
    PushedNothing(p, u, X, 5);
    assert multiset{} + multiset{Entry(8.0 / 9.0, Y)} == multiset{Entry(8.0 / 9.0, Y)};
  }

  lemma PushedForY(p: Problem, t: Times)
    requires Meets(p, t)
    ensures var v := Freeze(Freeze(t, X, 1.0), Y, 8.0 / 9.0);
            Covers(SIZE, v) && Frozen(v, Y) && Pushed(p, v, Y, 6) == Some(multiset{})
  {
    var v := Freeze(Freeze(t, X, 1.0), Y, 8.0 / 9.0);
    forall k: nat | k < 6
      ensures !Open(v, Face(Y, k))
    {
      OpenIsXOrY(t, Face(Y, k));
    }
    PushedNothing(p, v, Y, 6);
  }

  lemma FirstTurn(p: Problem, t: Times)
    requires Meets(p, t) && p.InGrid(Start(t))
    ensures IsLeast(Entry(1.0, X), Start(t).heap)
    ensures Step(p, Start(t), Entry(1.0, X))
            == Some(State(Freeze(t, X, 1.0), multiset{Entry(1.0, Y), Entry(8.0 / 9.0, Y)}))
  {
    PushedForX(p, t);
    LexOrder();
    assert Start(t).heap - multiset{Entry(1.0, X)} + multiset{Entry(8.0 / 9.0, Y)}
           == multiset{Entry(1.0, Y), Entry(8.0 / 9.0, Y)};
  }

  lemma SecondTurn(p: Problem, t: Times, s: State)
    requires Meets(p, t) && p.InGrid(s)
    requires s == State(Freeze(t, X, 1.0), multiset{Entry(1.0, Y), Entry(8.0 / 9.0, Y)})
    ensures IsLeast(Entry(8.0 / 9.0, Y), s.heap)
    ensures Step(p, s, Entry(8.0 / 9.0, Y))
            == Some(State(Freeze(Freeze(t, X, 1.0), Y, 8.0 / 9.0), multiset{Entry(1.0, Y)}))
  {
    PushedForY(p, t);
    LexOrder();
    assert s.heap - multiset{Entry(8.0 / 9.0, Y)} + multiset{} == multiset{Entry(1.0, Y)};
  }

  lemma ThirdTurn(p: Problem, t: Times, s: State)
    requires Meets(p, t) && p.InGrid(s)
    requires s == State(Freeze(Freeze(t, X, 1.0), Y, 8.0 / 9.0), multiset{Entry(1.0, Y)})
    ensures IsLeast(Entry(1.0, Y), s.heap) && Step(p, s, Entry(1.0, Y)) == Some(State(s.times, multiset{}))
  {
    LexOrder();
    assert s.heap - multiset{Entry(1.0, Y)} == multiset{};
  }

  lemma BoundaryExists() returns (t: Times)
    ensures IsBoundary(t)
  {
    t := map c | c in Cells(SIZE) && |c| == 3 :: BoundaryTime(c);
    assert forall c :: Inside(c, SIZE) ==> |c| == 3;
  }

  /** A complete run from a correctly seeded band that freezes X at 1 and only then Y at 8/9. */
  lemma OrderBreaks(m: Medium) returns (t: Times, pops: seq<Entry>)
    requires Unit3(m)
    ensures IsBoundary(t) && m.ToProblem(SIZE).Valid()
    ensures m.ToProblem(SIZE).InGrid(Start(t)) && Seeded(m.ToProblem(SIZE), Start(t))
    ensures |pops| == 3 && pops[0] == Entry(1.0, X) && pops[1] == Entry(8.0 / 9.0, Y)
    ensures Exec(m.ToProblem(SIZE), Start(t), pops)
            == Some(State(Freeze(Freeze(t, X, 1.0), Y, 8.0 / 9.0), multiset{}))
  {
    t := BoundaryExists();
    UnitMeets(m, t);
    StartIsSeeded(m.ToProblem(SIZE), t);
    pops := RunInOrder(m.ToProblem(SIZE), t);
  }

  lemma RunInOrder(p: Problem, t: Times) returns (pops: seq<Entry>)
    requires Meets(p, t) && p.InGrid(Start(t))
    ensures |pops| == 3 && pops[0] == Entry(1.0, X) && pops[1] == Entry(8.0 / 9.0, Y)
    ensures Exec(p, Start(t), pops) == Some(State(Freeze(Freeze(t, X, 1.0), Y, 8.0 / 9.0), multiset{}))
  {
    var firstTwo := FirstTwo(p, t);
    ThirdTurn(p, t, Exec(p, Start(t), firstTwo).value);
    ExecSnoc(p, Start(t), firstTwo, Entry(1.0, Y));
    pops := firstTwo + [Entry(1.0, Y)];
  }

  lemma FirstTwo(p: Problem, t: Times) returns (pops: seq<Entry>)
    requires Meets(p, t) && p.InGrid(Start(t))
    ensures pops == [Entry(1.0, X)] + [Entry(8.0 / 9.0, Y)]
    ensures Exec(p, Start(t), pops) == Some(State(Freeze(Freeze(t, X, 1.0), Y, 8.0 / 9.0), multiset{Entry(1.0, Y)}))
  {
    var none: seq<Entry> := [];
    var a := Entry(1.0, X);
    FirstTurn(p, t);
    ExecSnoc(p, Start(t), none, a);
    var one := none + [a];
    SecondTurn(p, t, Exec(p, Start(t), one).value);
    ExecSnoc(p, Start(t), one, Entry(8.0 / 9.0, Y));
    pops := one + [Entry(8.0 / 9.0, Y)];
  }

  lemma LexOrder()
    ensures IndexLeq(X, Y) && IndexLeq(X, X) && IndexLeq(Y, Y)
  {
    assert X[1..] == [0, 0] && Y[1..] == [0, 1];
    assert X[1..][1..] == [0] && Y[1..][1..] == [1];
    IndexLeqTotal(X, X);
    IndexLeqTotal(Y, Y);
  }
}
