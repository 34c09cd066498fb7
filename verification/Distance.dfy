/** The unit-speed distance solver, for one, two or three dimensions, over exact reals. */
module Distance {
  import opened Wrappers
  import opened Grids
  import opened NarrowBands
  import opened Marching
  import opened Upwind

  /** The square root function is exact where it is defined. */
  ghost predicate ExactSqrt(sqrt: real -> real)
  {
    forall x: real :: x >= 0.0 ==> sqrt(x) >= 0.0 && sqrt(x) * sqrt(x) == x
  }

  function Squared(x: real): real
  {
    x * x
  }

  /** The times that contribute, in axis order. */
  function Contributing(ms: seq<Option<real>>): (phi: seq<real>)
    ensures |phi| <= |ms|
  {
    if ms == [] then []
    else (if ms[0].Some? then [ms[0].value] else []) + Contributing(ms[1..])
  }

  function Mul(x: real, y: real): real
  {
    x * y
  }

  lemma MulIsPositive(x: real, y: real)
    requires x > 0.0 && y > 0.0
    ensures Mul(x, y) > 0.0
  {
  }

  lemma SquaredPositive(x: real)
    requires x > 0.0
    ensures Squared(x) > 0.0
  {
    MulIsPositive(x, x);
    assert Squared(x) == Mul(x, x);
  }

  function Sorted2(a: real, b: real): (real, real)
  {
    if a > b then (b, a) else (a, b)
  }

  /** The smallest of the closed forms for one, two and three axes that does not overrun the next time. */
  function DistanceRoot(sqrt: real -> real, dx: real, phi: seq<real>): real
    requires 1 <= |phi| <= 3
  {
    if |phi| == 1 then phi[0] + dx
    else if |phi| == 2 then
      var (a, b) := Sorted2(phi[0], phi[1]);
      Distance2(sqrt, dx, a, b)
    else
      var (a, b) := Sorted2(phi[0], phi[1]);
      var (b', c) := Sorted2(b, phi[2]);
      var (a', b'') := Sorted2(a, b');
      Distance3(sqrt, dx, a', b'', c)
  }

  function Both(sqrt: real -> real, dx: real, a: real, b: real): real
  {
    0.5 * (a + b + sqrt(2.0 * Squared(dx) - Squared(b - a)))
  }

  function Distance2(sqrt: real -> real, dx: real, a: real, b: real): real
  {
    if a + dx > b then Both(sqrt, dx, a, b) else a + dx
  }

  function Max0(x: real): real
  {
    if x > 0.0 then x else 0.0
  }

  function Radicand3(dx: real, a: real, b: real, c: real): real
  {
    Squared(a + b + c) - 3.0 * (Squared(a) + Squared(b) + Squared(c) - Squared(dx))
  }

  function AllThree(sqrt: real -> real, dx: real, a: real, b: real, c: real): real
  {
    (a + b + c + sqrt(Max0(Radicand3(dx, a, b, c)))) / 3.0
  }

  function Distance3(sqrt: real -> real, dx: real, a: real, b: real, c: real): real
  {
    if a + dx > b && Both(sqrt, dx, a, b) > c then AllThree(sqrt, dx, a, b, c)
    else Distance2(sqrt, dx, a, b)
  }

  /** With two close times the radicand is positive and the result is the root above both. */
  lemma BothIsRoot(sqrt: real -> real, dx: real, a: real, b: real)
    requires ExactSqrt(sqrt) && dx > 0.0 && a <= b < a + dx
    ensures 2.0 * Squared(dx) - Squared(b - a) > 0.0
    ensures var t := Both(sqrt, dx, a, b); b < t && Squared(t - a) + Squared(t - b) == Squared(dx)
  {
    SquareGrows(b - a, dx);
    var r := 2.0 * Squared(dx) - Squared(b - a);
    var s := sqrt(r);
    assert s * s == r;
    SquareOrder(b - a, s);
    HalfSumSquares(dx, a, b, s);
  }

  lemma SquareOrder(x: real, y: real)
    requires y >= 0.0 && x * x < y * y
    ensures x < y
  {
    if y <= x {
      SquareGrows(y, x);
    }
  }

  lemma HalfSumSquares(dx: real, a: real, b: real, s: real)
    requires s * s == 2.0 * Squared(dx) - Squared(b - a)
    ensures var t := 0.5 * (a + b + s); Squared(t - a) + Squared(t - b) == Squared(dx)
  {
    var d := b - a;
    var t := 0.5 * (a + b + s);
    assert t - a == 0.5 * (s + d) && t - b == 0.5 * (s - d);
    assert Squared(t - a) == 0.25 * (s * s + 2.0 * (s * d) + d * d);
    assert Squared(t - b) == 0.25 * (s * s - 2.0 * (s * d) + d * d);
  }

  /** Below the two-axis root the squared rises over the first two axes do not reach the spacing. */
  lemma BelowBoth(dx: real, a: real, b: real, c: real, u: real)
    requires a <= b <= c < u && Squared(u - a) + Squared(u - b) == Squared(dx)
    ensures Squared(c - a) + Squared(c - b) < Squared(dx)
  {
    SquareGrows(c - a, u - a);
    SquareGrows(c - b, u - b);
  }

  lemma RadicandPositive(dx: real, a: real, b: real, c: real)
    requires Squared(c - a) + Squared(c - b) < Squared(dx)
    ensures 0.0 <= Squared(3.0 * c - (a + b + c)) < Radicand3(dx, a, b, c)
  {
    var v := 3.0 * c - (a + b + c);
    RadicandAbove(dx, a, b, c);
    assert 0.0 <= v * v;
  }

  lemma RootAboveThird(a: real, b: real, c: real, s: real)
    requires 0.0 <= s && Squared(3.0 * c - (a + b + c)) < Squared(s)
    ensures c < (a + b + c + s) / 3.0
  {
    SquareOrder(3.0 * c - (a + b + c), s);
  }

  /** The third axis enters only when it lies below the two-axis root; then the clamp is idle. */
  lemma AllThreeIsRoot(sqrt: real -> real, dx: real, a: real, b: real, c: real)
    requires ExactSqrt(sqrt) && dx > 0.0 && a <= b <= c && b < a + dx
    requires c < Both(sqrt, dx, a, b)
    ensures Radicand3(dx, a, b, c) > 0.0
    ensures var t := AllThree(sqrt, dx, a, b, c);
            c < t && Squared(t - a) + Squared(t - b) + Squared(t - c) == Squared(dx)
  {
    BothIsRoot(sqrt, dx, a, b);
    BelowBoth(dx, a, b, c, Both(sqrt, dx, a, b));
    RadicandPositive(dx, a, b, c);
    var s := sqrt(Radicand3(dx, a, b, c));
    assert 0.0 <= s && Squared(s) == Radicand3(dx, a, b, c);
    RootAboveThird(a, b, c, s);
    ThirdSumSquares(dx, a, b, c, s);
    assert AllThree(sqrt, dx, a, b, c) == (a + b + c + s) / 3.0;
  }

  lemma RadicandAbove(dx: real, a: real, b: real, c: real)
    ensures var v := 3.0 * c - (a + b + c);
            Radicand3(dx, a, b, c) - v * v == 3.0 * (Squared(dx) - Squared(c - a) - Squared(c - b))
  {
    var x := c - a;
    var y := c - b;
    var v := x + y;
    assert 3.0 * c - (a + b + c) == v;
    Radicand3Shifted(dx, x, y, c);
    assert v * v == x * x + 2.0 * (x * y) + y * y;
  }

  lemma Radicand3Shifted(dx: real, x: real, y: real, c: real)
    ensures Radicand3(dx, c - x, c - y, c) == 3.0 * Squared(dx) - 2.0 * (x * x) - 2.0 * (y * y) + 2.0 * (x * y)
  {
    assert Squared(c - x) == c * c - 2.0 * (c * x) + x * x;
    assert Squared(c - y) == c * c - 2.0 * (c * y) + y * y;
    var z := x + y;
    assert Squared(3.0 * c - z) == 9.0 * (c * c) - 6.0 * (c * z) + z * z;
    assert c * z == c * x + c * y;
    assert z * z == x * x + 2.0 * (x * y) + y * y;
    assert c - x + (c - y) + c == 3.0 * c - z;
  }

  lemma ThirdSumSquares(dx: real, a: real, b: real, c: real, s: real)
    requires s * s == Radicand3(dx, a, b, c)
    ensures var t := (a + b + c + s) / 3.0;
            Squared(t - a) + Squared(t - b) + Squared(t - c) == Squared(dx)
  {
    var t := (a + b + c + s) / 3.0;
    var z := a + b + c;
    SquareDifference(t, a);
    SquareDifference(t, b);
    SquareDifference(t, c);
    assert t * z == t * a + t * b + t * c;
    assert 3.0 * t == z + s;
    assert s * s == (3.0 * t - z) * (3.0 * t - z) == 9.0 * (t * t) - 6.0 * (t * z) + z * z;
  }

  lemma SquareDifference(t: real, a: real)
    ensures Squared(t - a) == t * t - 2.0 * (t * a) + a * a
  {
  }

  /** The left side of the discrete equation over the contributing times only. */
  function Total(phi: seq<real>, t: real): real
  {
    if phi == [] then 0.0 else Rise(Some(phi[0]), t) + Total(phi[1..], t)
  }

  lemma {:induction false} TotalIsResidual(ms: seq<Option<real>>, t: real)
    ensures Total(Contributing(ms), t) == Residual(ms, t)
  {
    if ms != [] {
      TotalIsResidual(ms[1..], t);
      if ms[0].Some? {
        assert Contributing(ms) == [ms[0].value] + Contributing(ms[1..]);
        assert Contributing(ms)[1..] == Contributing(ms[1..]);
        assert ms[0] == Some(ms[0].value);
      } else {
        assert Contributing(ms) == Contributing(ms[1..]);
      }
    }
  }

  lemma {:induction false} ContributingNonempty(ms: seq<Option<real>>, k: nat)
    requires k < |ms| && ms[k].Some?
    ensures Contributing(ms) != []
  {
    if k > 0 {
      ContributingNonempty(ms[1..], k - 1);
    }
  }

  lemma Total3(a: real, b: real, c: real, t: real)
    ensures Total([a, b, c], t) == Rise(Some(a), t) + Rise(Some(b), t) + Rise(Some(c), t)
    ensures Total([a, b], t) == Rise(Some(a), t) + Rise(Some(b), t)
    ensures Total([a], t) == Rise(Some(a), t)
  {
    TotalCons(c, [], t);
    assert [c] == [c] + [];
    TotalCons(b, [c], t);
    assert [b, c] == [b] + [c];
    TotalCons(a, [b, c], t);
    assert [a, b, c] == [a] + [b, c];
    TotalCons(b, [], t);
    assert [b] == [b] + [];
    TotalCons(a, [b], t);
    assert [a, b] == [a] + [b];
    TotalCons(a, [], t);
    assert [a] == [a] + [];
  }

  lemma TotalCons(a: real, rest: seq<real>, t: real)
    ensures Total([a] + rest, t) == Rise(Some(a), t) + Total(rest, t)
  {
    assert ([a] + rest)[1..] == rest;
  }

  lemma Distance2Solves(sqrt: real -> real, dx: real, a: real, b: real)
    requires ExactSqrt(sqrt) && dx > 0.0 && a <= b
    ensures var t := Distance2(sqrt, dx, a, b); Rise(Some(a), t) + Rise(Some(b), t) == Squared(dx)
  {
    if a + dx > b {
      BothIsRoot(sqrt, dx, a, b);
    }
  }

  lemma RiseAbove(m: real, t: real)
    requires m <= t
    ensures Rise(Some(m), t) == Squared(t - m)
  {
  }

  lemma Distance3Solves(sqrt: real -> real, dx: real, a: real, b: real, c: real)
    requires ExactSqrt(sqrt) && dx > 0.0 && a <= b <= c
    ensures var t := Distance3(sqrt, dx, a, b, c);
            Rise(Some(a), t) + Rise(Some(b), t) + Rise(Some(c), t) == Squared(dx)
  {
    if a + dx > b && Both(sqrt, dx, a, b) > c {
      AllThreeIsRoot(sqrt, dx, a, b, c);
      var t := AllThree(sqrt, dx, a, b, c);
      RiseAbove(a, t);
      RiseAbove(b, t);
      RiseAbove(c, t);
    } else {
      Distance2Solves(sqrt, dx, a, b);
    }
  }

  lemma RootSolves(sqrt: real -> real, dx: real, phi: seq<real>)
    requires ExactSqrt(sqrt) && dx > 0.0 && 1 <= |phi| <= 3
    ensures Total(phi, DistanceRoot(sqrt, dx, phi)) == Squared(dx)
  {
    if |phi| == 1 {
      assert phi == [phi[0]];
      RootSolves1(sqrt, dx, phi[0]);
    } else if |phi| == 2 {
      assert phi == [phi[0], phi[1]];
      RootSolves2(sqrt, dx, phi[0], phi[1]);
    } else {
      assert phi == [phi[0], phi[1], phi[2]];
      RootSolves3(sqrt, dx, phi[0], phi[1], phi[2]);
    }
  }

  lemma RootSolves1(sqrt: real -> real, dx: real, x: real)
    requires dx > 0.0
    ensures Total([x], DistanceRoot(sqrt, dx, [x])) == Squared(dx)
  {
    Total3(x, 0.0, 0.0, x + dx);
    assert x + dx - x == dx;
  }

  lemma RootSolves2(sqrt: real -> real, dx: real, x: real, y: real)
    requires ExactSqrt(sqrt) && dx > 0.0
    ensures Total([x, y], DistanceRoot(sqrt, dx, [x, y])) == Squared(dx)
  {
    Total3(x, y, 0.0, DistanceRoot(sqrt, dx, [x, y]));
    var (a, b) := Sorted2(x, y);
    Distance2Solves(sqrt, dx, a, b);
  }

  lemma RootSolves3(sqrt: real -> real, dx: real, x: real, y: real, z: real)
    requires ExactSqrt(sqrt) && dx > 0.0
    ensures Total([x, y, z], DistanceRoot(sqrt, dx, [x, y, z])) == Squared(dx)
  {
    Total3(x, y, z, DistanceRoot(sqrt, dx, [x, y, z]));
    var (a, b) := Sorted2(x, y);
    var (b', c) := Sorted2(b, z);
    var (a', b'') := Sorted2(a, b');
    Distance3Solves(sqrt, dx, a', b'', c);
  }

  /** The arrival time of cell c, or the exception for a negative one. */
  function DistanceSolve(sqrt: real -> real, dx: real, c: Index, times: Times): Solved
    requires |c| <= 3 && Contributing(Minima(times, c)) != []
  {
    var t := DistanceRoot(sqrt, dx, Contributing(Minima(times, c)));
    if t >= 0.0 then Time(t) else Thrown
  }

  lemma SolvableContributes(times: Times, c: Index)
    requires Solvable(times, c)
    ensures Contributing(Minima(times, c)) != []
  {
    SolvableIffMinimum(times, c);
    var k :| 0 <= k < |c| && Minima(times, c)[k].Some?;
    ContributingNonempty(Minima(times, c), k);
  }

  /** The solver gives the one root of the upwind equation, or throws because that root is negative. */
  lemma DistanceSolveExact(sqrt: real -> real, dx: real, c: Index, times: Times, t: real)
    requires ExactSqrt(sqrt) && dx > 0.0 && |c| <= 3 && Contributing(Minima(times, c)) != []
    ensures Residual(Minima(times, c), t) == Squared(dx) <==>
              t == DistanceRoot(sqrt, dx, Contributing(Minima(times, c)))
    ensures DistanceSolve(sqrt, dx, c, times) == Time(t) <==>
              t >= 0.0 && Residual(Minima(times, c), t) == Squared(dx)
  {
    var root := DistanceRoot(sqrt, dx, Contributing(Minima(times, c)));
    RootSolves(sqrt, dx, Contributing(Minima(times, c)));
    TotalIsResidual(Minima(times, c), root);
    SquaredPositive(dx);
    if Residual(Minima(times, c), t) == Squared(dx) {
      RootUnique(Minima(times, c), t, root);
    }
  }

  lemma {:induction false} ContributingSnoc(ms: seq<Option<real>>, m: Option<real>)
    ensures Contributing(ms + [m]) == Contributing(ms) + (if m.Some? then [m.value] else [])
  {
    if ms == [] {
      assert ms + [m] == [m] && [m][1..] == [];
    } else {
      assert (ms + [m])[1..] == ms[1..] + [m] && (ms + [m])[0] == ms[0];
      ContributingSnoc(ms[1..], m);
      var head := if ms[0].Some? then [ms[0].value] else [];
      var last := if m.Some? then [m.value] else [];
      assert head + (Contributing(ms[1..]) + last) == (head + Contributing(ms[1..])) + last;
    }
  }

  /** Comparison of buffer slots, where an unused slot holds the largest value. */
  predicate Above(x: Option<real>, y: Option<real>)
  {
    y.Some? && (x.None? || x.value > y.value)
  }

  /** The smallest frozen time of the two neighbours on one axis, if any. */
  method SmallestNeighbor(grid: TimeGrid, index: Index, axis: nat) returns (least: Option<real>)
    requires grid.Valid() && |index| == |grid.size| && axis < |index|
    ensures least == AxisMin(grid.contents, index, axis)
  {
    least := None;
    var neighbor := index[axis := index[axis] - 1];
    if Inside(neighbor, grid.size) {
      var time := grid.Cell(neighbor);
      if Above(least, time) {
        least := time;
      }
    }
    neighbor := neighbor[axis := neighbor[axis] + 2];
    assert neighbor == Shift(index, axis, 1);
    if Inside(neighbor, grid.size) {
      var time := grid.Cell(neighbor);
      if Above(least, time) {
        least := time;
      }
    }
  }

  /** The contributing times, packed at the front of a buffer with one slot per axis. */
  method PackMinima(grid: TimeGrid, index: Index) returns (phi: seq<Option<real>>, count: nat)
    requires grid.Valid() && |index| == |grid.size|
    ensures |phi| == |index| && count == |Contributing(Minima(grid.contents, index))|
    ensures Packed(phi, Contributing(Minima(grid.contents, index)))
  {
    phi := seq(|index|, _ => None);
    count := 0;
    ghost var ms := Minima(grid.contents, index);
    for axis := 0 to |index|
      invariant |phi| == |index|
      invariant count == |Contributing(ms[..axis])| <= axis
      invariant Packed(phi, Contributing(ms[..axis]))
    {
      var least := SmallestNeighbor(grid, index, axis);
      ContributingSnoc(ms[..axis], least);
      assert ms[..axis + 1] == ms[..axis] + [least];
      if least.Some? {
        phi := phi[count := least];
        count := count + 1;
      }
    }
    assert ms[..|index|] == ms;
  }

  ghost predicate Packed(phi: seq<Option<real>>, times: seq<real>)
  {
    |times| <= |phi|
    && forall k :: 0 <= k < |phi| ==> phi[k] == if k < |times| then Some(times[k]) else None
  }

  /** Swaps two adjacent slots that are out of order. */
  function CompareSwap(phi: seq<Option<real>>, k: nat): seq<Option<real>>
    requires k + 1 < |phi|
  {
    if Above(phi[k], phi[k + 1]) then phi[k := phi[k + 1]][k + 1 := phi[k]] else phi
  }

  /** The buffer after the sorting network; unused slots end up last. */
  function Network(phi: seq<Option<real>>): (sorted: seq<Option<real>>)
    ensures |sorted| == |phi|
  {
    var p1 := if |phi| >= 2 then CompareSwap(phi, 0) else phi;
    var p2 := if |phi| == 3 then CompareSwap(p1, 1) else p1;
    if |phi| == 3 then CompareSwap(p2, 0) else p2
  }

  lemma NetworkOne(phi: seq<Option<real>>, x: real)
    requires 1 <= |phi| <= 3 && Packed(phi, [x])
    ensures Packed(Network(phi), [x])
  {
  }

  lemma NetworkTwo(phi: seq<Option<real>>, x: real, y: real)
    requires 2 <= |phi| <= 3 && Packed(phi, [x, y])
    ensures var (a, b) := Sorted2(x, y); Packed(Network(phi), [a, b])
  {
  }

  lemma NetworkThree(phi: seq<Option<real>>, x: real, y: real, z: real)
    requires |phi| == 3 && Packed(phi, [x, y, z])
    ensures var (a, b) := Sorted2(x, y);
            var (b', c) := Sorted2(b, z);
            var (a', b'') := Sorted2(a, b');
            a' <= b'' <= c && Packed(Network(phi), [a', b'', c])
  {
  }

  /** The nested closed forms over a sorted buffer of which the first count slots are in use. */
  ghost function Evaluate(sqrt: real -> real, dx: real, phi: seq<real>): real
    requires 1 <= |phi| <= 3
  {
    if |phi| == 1 then phi[0] + dx
    else if |phi| == 2 then Distance2(sqrt, dx, phi[0], phi[1])
    else Distance3(sqrt, dx, phi[0], phi[1], phi[2])
  }

  ghost predicate Ascending(times: seq<real>)
  {
    forall i, j :: 0 <= i < j < |times| ==> times[i] <= times[j]
  }

  lemma SwapKeeps(x: real, y: real)
    ensures var (a, b) := Sorted2(x, y); a <= b && multiset{a, b} == multiset{x, y}
  {
  }

  lemma SortsTwo(x: real, y: real)
    ensures var (a, b) := Sorted2(x, y); Ascending([a, b]) && multiset([a, b]) == multiset([x, y])
  {
    var (a, b) := Sorted2(x, y);
    assert multiset([a, b]) == multiset{a, b} && multiset([x, y]) == multiset{x, y};
  }

  lemma ThreeTimes(a: real, b: real, c: real)
    ensures multiset([a, b, c]) == multiset{a, b} + multiset{c}
    ensures multiset{a, b} + multiset{c} == multiset{a} + multiset{b, c}
  {
    assert [a, b, c] == [a, b] + [c];
  }

  lemma SortsThree(x: real, y: real, z: real)
    ensures var (a, b) := Sorted2(x, y);
            var (b', c) := Sorted2(b, z);
            var (a', b'') := Sorted2(a, b');
            multiset([a', b'', c]) == multiset([x, y, z])
  {
    var (a, b) := Sorted2(x, y);
    var (b', c) := Sorted2(b, z);
    var (a', b'') := Sorted2(a, b');
    SwapKeeps(x, y);
    SwapKeeps(b, z);
    SwapKeeps(a, b');
    ThreeTimes(x, y, z);
    ThreeTimes(a, b, z);
    ThreeTimes(a, b', c);
    ThreeTimes(a', b'', c);
  }

  lemma AscendingThree(a: real, b: real, c: real)
    requires a <= b <= c
    ensures Ascending([a, b, c])
  {
  }

  /** The network puts the times in ascending order, absent ones last. */
  lemma NetworkSorts(sqrt: real -> real, dx: real, phi: seq<Option<real>>, times: seq<real>) returns (sorted: seq<real>)
    requires 1 <= |times| <= |phi| <= 3 && Packed(phi, times)
    ensures Packed(Network(phi), sorted) && Ascending(sorted) && multiset(sorted) == multiset(times)
    ensures |sorted| == |times| && Evaluate(sqrt, dx, sorted) == DistanceRoot(sqrt, dx, times)
  {
    if |times| == 1 {
      assert times == [times[0]];
      NetworkOne(phi, times[0]);
      sorted := times;
    } else if |times| == 2 {
      assert times == [times[0], times[1]];
      NetworkTwo(phi, times[0], times[1]);
      SortsTwo(times[0], times[1]);
      var (a, b) := Sorted2(times[0], times[1]);
      sorted := [a, b];
    } else {
      assert times == [times[0], times[1], times[2]];
      NetworkThree(phi, times[0], times[1], times[2]);
      SortsThree(times[0], times[1], times[2]);
      var (a, b) := Sorted2(times[0], times[1]);
      var (b', c) := Sorted2(b, times[2]);
      var (a', b'') := Sorted2(a, b');
      AscendingThree(a', b'', c);
      sorted := [a', b'', c];
    }
  }

  method EvaluateSorted(sqrt: real -> real, dx: real, phi: seq<Option<real>>, count: nat, ghost sorted: seq<real>)
    returns (distance: real)
    requires 1 <= count == |sorted| <= |phi| <= 3 && Packed(phi, sorted)
    ensures distance == Evaluate(sqrt, dx, sorted)
  {
    distance := phi[0].value + dx;
    if |phi| >= 2 && count > 1 && distance > phi[1].value {
      distance := Both(sqrt, dx, phi[0].value, phi[1].value);
      if |phi| == 3 && count == 3 && distance > phi[2].value {
        distance := AllThree(sqrt, dx, phi[0].value, phi[1].value, phi[2].value);
      }
    }
  }

  method SolveDistance(sqrt: real -> real, grid: TimeGrid, index: Index, dx: real) returns (r: Solved)
    requires grid.Valid() && 1 <= |grid.size| <= 3 && Solvable(grid.contents, index)
    ensures Contributing(Minima(grid.contents, index)) != []
    ensures r == DistanceSolve(sqrt, dx, index, grid.contents)
  {
    SolvableContributes(grid.contents, index);
    var phi, count := PackMinima(grid, index);
    ghost var sorted := NetworkSorts(sqrt, dx, phi, Contributing(Minima(grid.contents, index)));
    phi := Network(phi);
    var distance := EvaluateSorted(sqrt, dx, phi, count, sorted);
    r := if distance >= 0.0 then Time(distance) else Thrown;
  }
}
