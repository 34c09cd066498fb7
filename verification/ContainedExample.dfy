/**
 A boundary with one component inside another: a ring around a block of nine cells, and the cell in the middle of the
 block. Whatever the plan, the cells around the middle one are seeds of both lists, so the march outside is to start
 from cells that the march inside has frozen.
 */
module ContainedExample {
  import opened Wrappers
  import opened Grids
  import opened Marching
  import opened Neighborhoods
  import opened Components
  import opened Seeds
  import opened NarrowBandSeeds
  import opened ArrivalTimes
  import opened ArrivalOutcome

  const SIZE: seq<nat> := [5, 5]
  const RING: seq<Index> :=
    [[0, 1], [0, 2], [0, 3], [1, 4], [2, 4], [3, 4], [4, 3], [4, 2], [4, 1], [3, 0], [2, 0], [1, 0]]
  const MIDDLE: Index := [2, 2]
  const BOUNDARY: seq<Index> := RING + [MIDDLE]

  predicate OnRing(x: int, y: int)
  {
    ((x == 0 || x == 4) && 1 <= y <= 3) || ((y == 0 || y == 4) && 1 <= x <= 3)
  }

  lemma RingAt(i: nat)
    requires i < |RING|
    ensures |RING[i]| == 2 && OnRing(RING[i][0], RING[i][1])
  {
  }

  lemma InRing(c: Index)
    ensures c in RING <==> |c| == 2 && OnRing(c[0], c[1])
  {
    if c in RING {
      var i :| 0 <= i < |RING| && RING[i] == c;
      RingAt(i);
    }
    if |c| == 2 && OnRing(c[0], c[1]) {
      assert c == [c[0], c[1]];
    }
  }

  lemma InBoundary(c: Index)
    ensures c in BOUNDARY <==> |c| == 2 && (OnRing(c[0], c[1]) || (c[0] == 2 && c[1] == 2))
  {
    InRing(c);
    assert c in BOUNDARY <==> c in RING || c == MIDDLE;
    if |c| == 2 {
      assert c == [c[0], c[1]];
    }
  }

  predicate Near(a: Index, b: Index)
    requires |a| == |b| == 2
  {
    a != b && -1 <= b[0] - a[0] <= 1 && -1 <= b[1] - a[1] <= 1
  }

  predicate Beside(a: Index, b: Index)
    requires |a| == |b| == 2
  {
    (a[0] == b[0] && (b[1] - a[1] == 1 || a[1] - b[1] == 1)) || (a[1] == b[1] && (b[0] - a[0] == 1 || a[0] - b[0] == 1))
  }

  lemma Step(a: Index, b: Index)
    requires |a| == |b| == 2
    ensures b == Plus(a, [b[0] - a[0], b[1] - a[1]])
  {
  }

  /** Cells linked over the offsets of the plan share a vertex. */
  lemma LinkedIfNear(plan: Plan, a: Index, b: Index)
    requires OffsetsOf(plan, 2) && |a| == |b| == 2
    ensures Linked(plan.offsets, a, b) <==> Near(a, b)
  {
    if Linked(plan.offsets, a, b) {
      var o :| o in plan.offsets && b == Plus(a, o);
      assert b[0] == a[0] + o[0] && b[1] == a[1] + o[1] && (o[0] != 0 || o[1] != 0);
    }
    if Near(a, b) {
      var o := [b[0] - a[0], b[1] - a[1]];
      Step(a, b);
      assert o[0] != 0 || o[1] != 0;
      assert VertexOffset(o, 2);
    }
  }

  /** Cells linked over its faces share a face. */
  lemma LinkedIfBeside(plan: Plan, a: Index, b: Index)
    requires OffsetsOf(plan, 2) && |a| == |b| == 2
    ensures Linked(plan.faces, a, b) <==> Beside(a, b)
  {
    if Linked(plan.faces, a, b) {
      var o :| o in plan.faces && b == Plus(a, o);
      var axis: nat :| axis < 2 && (o == Unit(2, axis, 1) || o == Unit(2, axis, -1));
      assert b[0] == a[0] + o[0] && b[1] == a[1] + o[1];
    }
    if Beside(a, b) {
      var o := [b[0] - a[0], b[1] - a[1]];
      Step(a, b);
      var axis: nat := if o[0] != 0 then 0 else 1;
      assert o == Unit(2, axis, o[axis]);
      assert FaceOffset(o, 2);
    }
  }

  lemma PlanSymmetric(plan: Plan)
    requires OffsetsOf(plan, 2)
    ensures Symmetric(plan.offsets) && Symmetric(plan.faces)
  {
    VertexOffsetsSymmetric(plan.offsets, 2);
    FaceOffsetsSymmetric(plan.faces, 2);
  }

  lemma RingNear(i: nat)
    requires i + 1 < |RING|
    ensures |RING[i]| == |RING[i + 1]| == 2 && Near(RING[i], RING[i + 1])
  {
  }

  /** The ring belongs to one component of any plan. */
  lemma RingIsOne(plan: Plan)
    requires PlanOf(BOUNDARY, SIZE, plan)
    ensures forall c :: c in RING ==> c in plan.owner && plan.owner[c] == plan.owner[RING[0]]
  {
    PlanSymmetric(plan);
    forall i | 0 <= i < |RING|
      ensures RING[i] in plan.owner
    {
      assert RING[i] in BOUNDARY;
    }
    forall i, j | 0 <= i < |RING| && j == i + 1 < |RING|
      ensures Linked(plan.offsets, RING[i], RING[j])
    {
      RingNear(i);
      LinkedIfNear(plan, RING[i], RING[j]);
    }
    forall c | c in RING
      ensures c in plan.owner && plan.owner[c] == plan.owner[RING[0]]
    {
      var i :| 0 <= i < |RING| && RING[i] == c;
      ChainSameOwner(plan.offsets, plan.owner.Keys, plan.owner, RING, i);
    }
  }

  lemma FirstLink(offsets: seq<Index>, cells: set<Index>, path: seq<Index>)
    requires Chain(offsets, cells, path) && |path| > 1
    ensures path[1] in cells && Linked(offsets, path[0], path[1])
  {
  }

  lemma MiddleLinksNone(plan: Plan, next: Index)
    requires OffsetsOf(plan, 2) && next in BOUNDARY
    ensures !Linked(plan.offsets, MIDDLE, next)
  {
    InBoundary(next);
    LinkedIfNear(plan, MIDDLE, next);
  }

  /** The middle cell is a component of its own. */
  lemma MiddleAlone(plan: Plan, c: Index)
    requires PlanOf(BOUNDARY, SIZE, plan) && MIDDLE in plan.owner && c in plan.owner
    requires plan.owner[c] == plan.owner[MIDDLE]
    ensures c == MIDDLE
  {
    PlanSymmetric(plan);
    SameComponentIffConnected(plan.offsets, plan.components, plan.owner, MIDDLE, c);
    var path :| Chain(plan.offsets, plan.owner.Keys, path) && path[0] == MIDDLE && path[|path| - 1] == c;
    if c != MIDDLE {
      FirstLink(plan.offsets, plan.owner.Keys, path);
      MiddleLinksNone(plan, path[1]);
    }
  }

  /** The cells around a component, in the coordinates of the grid. */
  lemma DilatedIff(plan: Plan, component: seq<Index>, s: Split, c: Index)
    requires OffsetsOf(plan, 2) && SplitOf(component, SIZE, plan.offsets, plan.faces, s)
    requires |c| == 2 && forall d :: d in component ==> |d| == 2
    ensures Up(c) in s.owner <==> c !in component && exists d :: d in component && Near(d, c)
  {
    UpListMembers(component, c);
    if Up(c) in s.owner {
      var k :| k in UpList(component) && Linked(plan.offsets, k, Up(c));
      var i :| 0 <= i < |component| && UpList(component)[i] == k;
      LinkedUp(plan.offsets, component[i], c);
      LinkedIfNear(plan, component[i], c);
    }
    if d :| d in component && Near(d, c) {
      UpListMembers(component, d);
      LinkedUp(plan.offsets, d, c);
      LinkedIfNear(plan, d, c);
    }
  }

  lemma DilatedFlat(plan: Plan, component: seq<Index>, s: Split, d: Index)
    requires OffsetsOf(plan, 2) && SplitOf(component, SIZE, plan.offsets, plan.faces, s) && d in s.owner
    requires forall c :: c in component ==> |c| == 2
    ensures |d| == 2
  {
    var k :| k in UpList(component) && Linked(plan.offsets, k, d);
    var i :| 0 <= i < |component| && UpList(component)[i] == k;
    assert component[i] in component;
  }

  /** The cells around the middle one, in the coordinates of the padded grid, each beside the next. */
  const AROUND: seq<Index> := [[2, 2], [2, 3], [2, 4], [3, 4], [4, 4], [4, 3], [4, 2], [3, 2]]
  /** Some of the cells around the ring. */
  const OUTER: seq<Index> := [[0, 1], [0, 2], [0, 3], [0, 4], [0, 5], [1, 5], [1, 6]]
  /** A cell between the ring and the middle one. */
  const BETWEEN: Index := [1, 2]

  /** A split of a component of the plan. */
  ghost predicate SplitAt(plan: Plan, component: seq<Index>, s: Split)
  {
    && OffsetsOf(plan, 2) && SplitOf(component, SIZE, plan.offsets, plan.faces, s)
    && forall c :: c in component ==> |c| == 2
  }

  /** Cells around a component that follow each other over faces are in one band. */
  lemma SameBand(plan: Plan, component: seq<Index>, s: Split, path: seq<Index>, i: nat)
    requires SplitAt(plan, component, s) && i < |path|
    requires forall i :: 0 <= i < |path| ==> |path[i]| == 2 && path[i] in s.owner
    requires forall i :: 0 <= i < |path| - 1 ==> Beside(path[i], path[i + 1])
    ensures s.owner[path[i]] == s.owner[path[0]]
  {
    PlanSymmetric(plan);
    forall i, j | 0 <= i < |path| && j == i + 1 < |path|
      ensures Linked(plan.faces, path[i], path[j])
    {
      assert Beside(path[i], path[i + 1]);
      LinkedIfBeside(plan, path[i], path[j]);
    }
    ChainSameOwner(plan.faces, s.owner.Keys, s.owner, path, i);
  }

  lemma BandHolds(plan: Plan, component: seq<Index>, s: Split, k: nat, d: Index)
    requires SplitAt(plan, component, s) && k < |s.bands|
    ensures d in s.bands[k] <==> d in s.owner && s.owner[d] == k
  {
    assert Owns(s.bands[k], s.owner, k);
  }

  lemma CellOfBand(plan: Plan, component: seq<Index>, s: Split, k: nat) returns (d: Index)
    requires SplitAt(plan, component, s) && k < |s.bands|
    ensures d in s.owner && s.owner[d] == k
  {
    d := s.bands[k][0];
    BandHolds(plan, component, s, k, d);
  }

  lemma AroundAt(i: nat)
    requires i < |AROUND|
    ensures |AROUND[i]| == 2 && (i + 1 < |AROUND| ==> |AROUND[i + 1]| == 2 && Beside(AROUND[i], AROUND[i + 1]))
    ensures Near(MIDDLE, Down(AROUND[i]))
  {
  }

  lemma InAround(d: Index)
    requires |d| == 2 && Near(MIDDLE, Down(d))
    ensures d in AROUND
  {
    assert d == [d[0], d[1]];
  }

  /** The cells around the middle one form one band. */
  lemma MiddleBand(plan: Plan, component: seq<Index>, s: Split, d: Index)
    requires SplitAt(plan, component, s) && (forall c :: c in component <==> c == MIDDLE) && d in s.owner
    ensures AROUND[0] in s.owner && s.owner[d] == s.owner[AROUND[0]]
  {
    forall i | 0 <= i < |AROUND|
      ensures AROUND[i] in s.owner
    {
      AroundAt(i);
      UpDown(AROUND[i]);
      DilatedIff(plan, component, s, Down(AROUND[i]));
    }
    forall i | 0 <= i < |AROUND| - 1
      ensures Beside(AROUND[i], AROUND[i + 1])
    {
      AroundAt(i);
    }
    DilatedFlat(plan, component, s, d);
    UpDown(d);
    DilatedIff(plan, component, s, Down(d));
    InAround(d);
    var i :| 0 <= i < |AROUND| && AROUND[i] == d;
    SameBand(plan, component, s, AROUND, i);
  }

  /** So the band that is chosen around the middle cell has the cell between. */
  lemma BetweenOutside(plan: Plan, component: seq<Index>, s: Split)
    requires SplitAt(plan, component, s) && forall c :: c in component <==> c == MIDDLE
    ensures InBand(s.bands, s.chosen, SIZE, BOUNDARY, BETWEEN)
  {
    var d := CellOfBand(plan, component, s, s.chosen);
    MiddleBand(plan, component, s, d);
    BetweenIsDilated(plan, component, s, MIDDLE);
    MiddleBand(plan, component, s, Up(BETWEEN));
    BandHolds(plan, component, s, s.chosen, Up(BETWEEN));
    BetweenBorders();
  }

  lemma BetweenIsDilated(plan: Plan, component: seq<Index>, s: Split, d: Index)
    requires SplitAt(plan, component, s) && d in component && |d| == 2 && Near(d, BETWEEN) && BETWEEN !in component
    ensures Up(BETWEEN) in s.owner
  {
    DilatedIff(plan, component, s, BETWEEN);
  }

  lemma BetweenBorders()
    ensures Inside(BETWEEN, SIZE) && BETWEEN !in BOUNDARY && Bordering(BOUNDARY, BETWEEN)
  {
    InBoundary(BETWEEN);
    InBoundary(MIDDLE);
    assert MIDDLE == Shift(BETWEEN, 0, 1) && AdjacentOn(BETWEEN, MIDDLE, 0);
  }

  ghost predicate RingSplit(plan: Plan, component: seq<Index>, s: Split)
  {
    SplitAt(plan, component, s) && forall c :: c in component <==> c in RING
  }

  lemma RingDilated(plan: Plan, component: seq<Index>, s: Split, c: Index, d: Index)
    requires RingSplit(plan, component, s) && |c| == 2 && |d| == 2
    ensures !OnRing(c[0], c[1]) && OnRing(d[0], d[1]) && Near(d, c) ==> Up(c) in s.owner
    ensures Up(c) in s.owner ==> !OnRing(c[0], c[1])
  {
    InRing(c);
    InRing(d);
    DilatedIff(plan, component, s, c);
  }

  /** The block inside the ring, in the coordinates of the padded grid. */
  predicate InBlock(d: Index)
  {
    |d| == 2 && 2 <= d[0] <= 4 && 2 <= d[1] <= 4
  }

  /** No face step over cells around the ring leaves the block. */
  lemma {:induction false} StaysInBlock(plan: Plan, component: seq<Index>, s: Split, path: seq<Index>, i: nat)
    requires RingSplit(plan, component, s) && Chain(plan.faces, s.owner.Keys, path) && i < |path| && InBlock(path[0])
    ensures InBlock(path[i])
  {
    if i > 0 {
      StaysInBlock(plan, component, s, path, i - 1);
      BlockStep(plan, component, s, path[i - 1], path[i]);
    }
  }

  lemma BlockStep(plan: Plan, component: seq<Index>, s: Split, a: Index, b: Index)
    requires RingSplit(plan, component, s) && InBlock(a) && b in s.owner && Linked(plan.faces, a, b)
    ensures InBlock(b)
  {
    DilatedFlat(plan, component, s, b);
    LinkedIfBeside(plan, a, b);
    UpDown(b);
    RingDilated(plan, component, s, Down(b), MIDDLE);
  }

  /** The band of the cell between lies in the block. */
  lemma BetweenBand(plan: Plan, component: seq<Index>, s: Split, d: Index)
    requires RingSplit(plan, component, s) && Up(BETWEEN) in s.owner
    requires d in s.owner && s.owner[d] == s.owner[Up(BETWEEN)]
    ensures InBlock(d)
  {
    PlanSymmetric(plan);
    SameComponentIffConnected(plan.faces, s.bands, s.owner, Up(BETWEEN), d);
    var path :| Chain(plan.faces, s.owner.Keys, path) && path[0] == Up(BETWEEN) && path[|path| - 1] == d;
    StaysInBlock(plan, component, s, path, |path| - 1);
  }

  lemma OuterAt(i: nat) returns (d: Index)
    requires i < |OUTER|
    ensures |OUTER[i]| == 2 && (i + 1 < |OUTER| ==> |OUTER[i + 1]| == 2 && Beside(OUTER[i], OUTER[i + 1]))
    ensures |d| == 2 && OnRing(d[0], d[1]) && Near(d, Down(OUTER[i])) && !OnRing(Down(OUTER[i])[0], Down(OUTER[i])[1])
  {
    d := if i <= 2 then [0, 1] else if i <= 5 then [0, 3] else [1, 4];
  }

  /** Some of the cells around the ring are in one band, which is not that of the cell between. */
  lemma OuterBand(plan: Plan, component: seq<Index>, s: Split)
    requires RingSplit(plan, component, s)
    ensures OUTER[0] in s.owner && OUTER[6] in s.owner && s.owner[OUTER[6]] == s.owner[OUTER[0]]
  {
    forall i | 0 <= i < |OUTER|
      ensures OUTER[i] in s.owner
    {
      var d := OuterAt(i);
      UpDown(OUTER[i]);
      RingDilated(plan, component, s, Down(OUTER[i]), d);
    }
    forall i | 0 <= i < |OUTER| - 1
      ensures Beside(OUTER[i], OUTER[i + 1])
    {
      var d := OuterAt(i);
    }
    var _ := OuterAt(6);
    SameBand(plan, component, s, OUTER, 6);
  }

  /** The volume of a flat box. */
  lemma FlatVolume(low: Index, high: Index)
    requires |low| == |high| == 2 && low[0] <= high[0] && low[1] <= high[1]
    ensures HyperVolume(low, high) == (high[0] - low[0] + 1) * (high[1] - low[1] + 1)
  {
    assert HyperVolume(low[1..], high[1..]) == (high[1] - low[1] + 1) * HyperVolume([], []) by {
      assert low[1..][1..] == [] && high[1..][1..] == [];
    }
  }

  lemma BoxOfTwo(cells: seq<Index>, v: nat, a: Index, b: Index)
    requires HasVolume(cells, 2, v) && a in cells && b in cells && |a| == |b| == 2
    requires a[0] == 0 && b[0] >= 1 && a[1] <= 1 && b[1] >= 6
    ensures v >= 12
  {
    var low, high :| BoxOf(cells, 2, low, high) && IsVolume(low, high, v);
    FlatVolume(low, high);
    assert low[0] <= a[0] && b[0] <= high[0] && low[1] <= a[1] && b[1] <= high[1];
    AtLeastTwelve(high[0] - low[0] + 1, high[1] - low[1] + 1);
  }

  lemma AtLeastTwelve(x: int, y: int)
    requires x >= 2 && y >= 6
    ensures x * y >= 12
  {
    assert x * y == (x - 2) * y + 2 * y;
    assert (x - 2) * y >= 0;
  }

  lemma BoxOfBlock(cells: seq<Index>, v: nat)
    requires HasVolume(cells, 2, v) && forall d :: d in cells ==> InBlock(d)
    ensures v <= 9
  {
    var low, high :| BoxOf(cells, 2, low, high) && IsVolume(low, high, v);
    FlatVolume(low, high);
    forall k | 0 <= k < 2
      ensures 2 <= low[k] <= high[k] <= 4
    {
      assert Attained(cells, 2, k, low[k]) && Attained(cells, 2, k, high[k]);
    }
    AtMostNine(high[0] - low[0] + 1, high[1] - low[1] + 1);
  }

  lemma AtMostNine(x: int, y: int)
    requires 1 <= x <= 3 && 1 <= y <= 3
    ensures x * y <= 9
  {
  }

  /** So the band that is chosen around the ring is not that of the cell between. */
  lemma BetweenInside(plan: Plan, component: seq<Index>, s: Split)
    requires RingSplit(plan, component, s)
    ensures InOther(s.bands, s.chosen, SIZE, BOUNDARY, BETWEEN)
  {
    InRing(BETWEEN);
    InRing([0, 2]);
    BetweenIsDilated(plan, component, s, [0, 2]);
    var j := s.owner[Up(BETWEEN)];
    BandHolds(plan, component, s, j, Up(BETWEEN));
    BetweenBorders();
    assert InBand(s.bands, j, SIZE, BOUNDARY, BETWEEN);
    if s.chosen == j {
      BlockNotLargest(plan, component, s);
    }
  }

  lemma BlockNotLargest(plan: Plan, component: seq<Index>, s: Split)
    requires RingSplit(plan, component, s) && Up(BETWEEN) in s.owner
    ensures s.chosen != s.owner[Up(BETWEEN)]
  {
    OuterBand(plan, component, s);
    var j, o := s.owner[Up(BETWEEN)], s.owner[OUTER[0]];
    forall d | d in s.bands[j]
      ensures InBlock(d)
    {
      BandHolds(plan, component, s, j, d);
      BetweenBand(plan, component, s, d);
    }
    BandHolds(plan, component, s, o, OUTER[0]);
    BandHolds(plan, component, s, o, OUTER[6]);
    assert !InBlock(OUTER[0]);
    if s.chosen == j {
      assert NotLarger(s.bands, 2, j, o);
      var u: nat, v: nat :| HasVolume(s.bands[j], 2, u) && HasVolume(s.bands[o], 2, v) && v <= u;
      BoxOfBlock(s.bands[j], u);
      BoxOfTwo(s.bands[o], v, OUTER[0], OUTER[6]);
    }
  }

  /** Whatever the plan, the cell between is a seed of both lists. */
  lemma BetweenBoth(plan: Plan)
    requires PlanOf(BOUNDARY, SIZE, plan)
    ensures InsideSeed(plan, SIZE, BOUNDARY, BETWEEN) && OutsideSeed(plan, SIZE, BOUNDARY, BETWEEN)
  {
    RingIsOne(plan);
    assert MIDDLE in BOUNDARY && RING[0] in RING;
    RingComponent(plan);
    MiddleComponent(plan);
    var r, m := plan.owner[RING[0]], plan.owner[MIDDLE];
    BetweenInside(plan, plan.components[r], plan.splits[r]);
    BetweenOutside(plan, plan.components[m], plan.splits[m]);
    FromSplits(plan, r, m);
  }

  lemma FromSplits(plan: Plan, r: nat, m: nat)
    requires r < |plan.splits| && InOther(plan.splits[r].bands, plan.splits[r].chosen, SIZE, BOUNDARY, BETWEEN)
    requires m < |plan.splits| && InBand(plan.splits[m].bands, plan.splits[m].chosen, SIZE, BOUNDARY, BETWEEN)
    ensures InsideSeed(plan, SIZE, BOUNDARY, BETWEEN) && OutsideSeed(plan, SIZE, BOUNDARY, BETWEEN)
  {
  }

  /** So the walk that is just this cell leads from an inside seed to an outside one. */
  lemma AlwaysContained(plan: Plan)
    requires PlanOf(BOUNDARY, SIZE, plan)
    ensures InsideSeed(plan, SIZE, BOUNDARY, BETWEEN) && Contained(SIZE, BOUNDARY, plan)
  {
    BetweenBoth(plan);
    BetweenBorders();
    SingleWalk(plan, BETWEEN);
  }

  lemma SingleWalk(plan: Plan, c: Index)
    requires InsideSeed(plan, SIZE, BOUNDARY, c) && OutsideSeed(plan, SIZE, BOUNDARY, c)
    requires Inside(c, SIZE) && c !in BOUNDARY
    ensures Contained(SIZE, BOUNDARY, plan)
  {
    var path := [c];
    assert ClearWalk(SIZE, BOUNDARY, path) && path[|path| - 1] == c;
  }

  lemma RingComponent(plan: Plan)
    requires PlanOf(BOUNDARY, SIZE, plan) && RING[0] in plan.owner
    ensures var r := plan.owner[RING[0]];
            r < |plan.components| == |plan.splits| && RingSplit(plan, plan.components[r], plan.splits[r])
  {
    var r := plan.owner[RING[0]];
    assert Owns(plan.components[r], plan.owner, r);
    RingIsOne(plan);
    assert MIDDLE in BOUNDARY;
    forall c
      ensures c in plan.components[r] <==> c in RING
    {
      InBoundary(c);
      InRing(c);
      assert c in plan.owner <==> c in BOUNDARY;
      if plan.owner[MIDDLE] == r {
        MiddleAlone(plan, RING[0]);
      }
      assert |c| == 2 && c[0] == 2 && c[1] == 2 ==> c == MIDDLE;
    }
    forall c | c in plan.components[r]
      ensures |c| == 2
    {
      InRing(c);
    }
  }

  lemma MiddleComponent(plan: Plan)
    requires PlanOf(BOUNDARY, SIZE, plan) && MIDDLE in plan.owner
    ensures var m := plan.owner[MIDDLE];
            && m < |plan.components| == |plan.splits| && SplitAt(plan, plan.components[m], plan.splits[m])
            && forall c :: c in plan.components[m] <==> c == MIDDLE
  {
    var m := plan.owner[MIDDLE];
    assert Owns(plan.components[m], plan.owner, m);
    forall c | c in plan.components[m]
      ensures c == MIDDLE
    {
      MiddleAlone(plan, c);
    }
  }

  /** The input passes every check, and with a solver that never throws no computation on it delivers a result. */
  lemma NeverDelivered(p: Problem, times: seq<real>, trace: Trace, r: Arrival)
    requires p.Valid() && p.size == SIZE && |times| == |BOUNDARY| && NeverThrows(p)
    requires Outcome(p, BOUNDARY, times, trace, r)
    ensures InputFailure(SIZE, BOUNDARY, times) == None && r == Failed(FrozenSeed)
  {
    OutcomePlanned(p, BOUNDARY, times, trace, r);
    AlwaysContained(trace.plan);
    SeedListed(SIZE, BOUNDARY, trace, BETWEEN);
    BoundaryAccepted(times);
    BoundaryDistinct();
    DeliversIff(p, BOUNDARY, times, trace, r);
  }

  lemma SeedListed(size: seq<nat>, boundary: seq<Index>, trace: Trace, c: Index)
    requires Planned(size, boundary, trace) && InsideSeed(trace.plan, size, boundary, c)
    ensures trace.inside != []
  {
    assert c in trace.inside;
  }

  lemma BoundaryAccepted(times: seq<real>)
    requires |times| == |BOUNDARY|
    ensures InputFailure(SIZE, BOUNDARY, times) == None
  {
    assert LinearSize(SIZE) == 25;
    forall b | b in BOUNDARY
      ensures Inside(b, SIZE)
    {
      InBoundary(b);
    }
  }

  lemma BoundaryDistinct()
    ensures Distinct(BOUNDARY)
  {
  }
}
