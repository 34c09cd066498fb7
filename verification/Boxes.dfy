/** How many cells a box and a grid have. */
module Boxes {
  import opened Grids
  import opened NarrowBandSeeds
  import opened BandPlans

  ghost predicate InBox(c: Index, low: Index, high: Index)
  {
    |c| == |low| == |high| && forall k :: 0 <= k < |c| ==> low[k] <= c[k] <= high[k]
  }

  /** Putting one coordinate in front of cells makes no two of them the same. */
  lemma {:induction false} SameTails(x: int, rest: set<Index>, cells: set<Index>)
    requires forall c :: c in cells <==> c != [] && c[0] == x && c[1..] in rest
    ensures |cells| == |rest|
  {
    if rest == {} {
      assert cells == {};
    } else {
      var r :| r in rest;
      var c := [x] + r;
      assert c[1..] == r && c in cells;
      forall d
        ensures d in cells - {c} <==> d != [] && d[0] == x && d[1..] in rest - {r}
      {
        assert d != [] ==> d == [d[0]] + d[1..];
      }
      SameTails(x, rest - {r}, cells - {c});
    }
  }

  /** With n values for the first coordinate there are n times as many. */
  lemma {:induction false} MoreAxes(a: int, n: nat, rest: set<Index>, cells: set<Index>)
    requires forall c :: c in cells <==> c != [] && a <= c[0] < a + n && c[1..] in rest
    ensures |cells| == n * |rest|
  {
    if n == 0 {
      assert cells == {};
    } else {
      var top := set c | c in cells && c[0] == a + n - 1;
      SameTails(a + n - 1, rest, top);
      MoreAxes(a, n - 1, rest, cells - top);
      assert cells == (cells - top) + top;
      assert n * |rest| == (n - 1) * |rest| + |rest|;
    }
  }

  /** The cells of a box. */
  ghost function BoxCells(low: Index, high: Index): (cells: set<Index>)
    requires |low| == |high|
    ensures forall c :: c in cells <==> InBox(c, low, high)
    decreases |low|
  {
    if low == [] then {[]}
    else
      var rest := BoxCells(low[1..], high[1..]);
      var cells := set i: int, r: Index | low[0] <= i <= high[0] && r in rest :: [i] + r;
      BoxExact(low, high, rest, cells);
      cells
  }

  lemma BoxExact(low: Index, high: Index, rest: set<Index>, cells: set<Index>)
    requires |low| == |high| > 0
    requires forall c :: c in rest <==> InBox(c, low[1..], high[1..])
    requires cells == set i: int, r: Index | low[0] <= i <= high[0] && r in rest :: [i] + r
    ensures forall c :: c in cells <==> InBox(c, low, high)
  {
    forall c: Index | InBox(c, low, high)
      ensures c in cells
    {
      assert c == [c[0]] + c[1..] && InBox(c[1..], low[1..], high[1..]);
    }
  }

  /** The volume of a box is the number of its cells. */
  lemma {:induction false} VolumeCounts(low: Index, high: Index)
    requires |low| == |high| && forall k :: 0 <= k < |low| ==> low[k] <= high[k]
    ensures HyperVolume(low, high) == |BoxCells(low, high)|
    decreases |low|
  {
    if low != [] {
      VolumeCounts(low[1..], high[1..]);
      FrontCounts(low, high, high[0] - low[0] + 1);
      VolumeFront(low, high, high[0] - low[0] + 1);
    }
  }

  lemma VolumeFront(low: Index, high: Index, n: nat)
    requires |low| == |high| > 0 && (forall k :: 0 <= k < |low| ==> low[k] <= high[k]) && n == high[0] - low[0] + 1
    ensures HyperVolume(low, high) == n * HyperVolume(low[1..], high[1..])
  {
  }

  lemma FrontCounts(low: Index, high: Index, n: nat)
    requires |low| == |high| > 0 && n == high[0] - low[0] + 1
    ensures |BoxCells(low, high)| == n * |BoxCells(low[1..], high[1..])|
  {
    forall c: Index
      ensures c in BoxCells(low, high) <==>
                c != [] && low[0] <= c[0] < low[0] + n && c[1..] in BoxCells(low[1..], high[1..])
    {
      FrontOfBox(low, high, c);
    }
    MoreAxes(low[0], n, BoxCells(low[1..], high[1..]), BoxCells(low, high));
  }

  lemma FrontOfBox(low: Index, high: Index, c: Index)
    requires |low| == |high| > 0
    ensures c in BoxCells(low, high) <==>
              c != [] && low[0] <= c[0] <= high[0] && c[1..] in BoxCells(low[1..], high[1..])
  {
    if c != [] {
      SplitBox(c, low, high);
    }
  }

  lemma SplitBox(c: Index, low: Index, high: Index)
    requires |low| == |high| > 0 && c != []
    ensures InBox(c, low, high) <==> low[0] <= c[0] <= high[0] && InBox(c[1..], low[1..], high[1..])
  {
    if low[0] <= c[0] <= high[0] && InBox(c[1..], low[1..], high[1..]) {
      forall k | 0 <= k < |c|
        ensures low[k] <= c[k] <= high[k]
      {
        if k > 0 {
          assert low[1..][k - 1] <= c[1..][k - 1] <= high[1..][k - 1];
        }
      }
    }
  }

  lemma {:induction false} FewerCells(a: set<Index>, b: set<Index>)
    requires a < b
    ensures |a| < |b|
  {
    var c :| c in b && c !in a;
    SubsetCount(a, b - {c});
  }

  lemma {:induction false} SubsetCount(a: set<Index>, b: set<Index>)
    requires a <= b
    ensures |a| <= |b|
  {
    if a != {} {
      var c :| c in a;
      SubsetCount(a - {c}, b - {c});
    }
  }

  /** A box inside another one. */
  ghost predicate BoxInside(low: Index, high: Index, outerLow: Index, outerHigh: Index)
  {
    && |low| == |high| == |outerLow| == |outerHigh|
    && forall k :: 0 <= k < |low| ==> outerLow[k] <= low[k] <= high[k] <= outerHigh[k]
  }

  /** In every dimension a box inside another, and not the same, has a smaller volume. */
  lemma InsideIsSmaller(low: Index, high: Index, outerLow: Index, outerHigh: Index)
    requires BoxInside(low, high, outerLow, outerHigh) && (low != outerLow || high != outerHigh)
    ensures HyperVolume(low, high) < HyperVolume(outerLow, outerHigh)
  {
    VolumeCounts(low, high);
    VolumeCounts(outerLow, outerHigh);
    var inner, outer := BoxCells(low, high), BoxCells(outerLow, outerHigh);
    forall c | c in inner
      ensures c in outer
    {
    }
    var corner := if low != outerLow then outerLow else outerHigh;
    assert InBox(corner, outerLow, outerHigh);
    CornerOutside(low, high, outerLow, outerHigh, corner);
    assert corner in outer && corner !in inner;
    FewerCells(inner, outer);
  }

  lemma CornerOutside(low: Index, high: Index, outerLow: Index, outerHigh: Index, corner: Index)
    requires BoxInside(low, high, outerLow, outerHigh)
    requires (low != outerLow && corner == outerLow) || (high != outerHigh && corner == outerHigh)
    ensures !InBox(corner, low, high)
  {
    if low != outerLow && corner == outerLow {
      var k :| 0 <= k < |low| && low[k] != outerLow[k];
      assert corner[k] < low[k];
    } else {
      var k :| 0 <= k < |low| && high[k] != outerHigh[k];
      assert corner[k] > high[k];
    }
  }

  /** The number that bands are compared by is that of the cells in their boxes. */
  lemma VolumeOfBand(cells: seq<Index>, n: nat, v: nat, low: Index, high: Index)
    requires HasVolume(cells, n, v) && BoxOf(cells, n, low, high)
    ensures v == |BoxCells(low, high)|
  {
    var l, h :| BoxOf(cells, n, l, h) && IsVolume(l, h, v);
    BoxesAlike(cells, cells, n, l, h, low, high);
    VolumeCounts(low, high);
  }

  /** The box of band i lies in that of band j, and is not the same. */
  ghost predicate Within(bands: seq<seq<Index>>, n: nat, i: nat, j: nat)
    requires i < |bands| && j < |bands|
  {
    && (forall c :: c in bands[i] || c in bands[j] ==> |c| == n)
    && exists low, high, outerLow, outerHigh ::
         && BoxOf(bands[i], n, low, high) && BoxOf(bands[j], n, outerLow, outerHigh)
         && BoxInside(low, high, outerLow, outerHigh) && (low != outerLow || high != outerHigh)
  }

  /** So a band whose box lies in that of another is never the one that is taken for the outside. */
  lemma InnerNotChosen(s: Split, n: nat, i: nat, j: nat)
    requires Largest(s, n) && i < |s.bands| && j < |s.bands| && Within(s.bands, n, i, j)
    ensures s.chosen != i
  {
    var low, high, outerLow, outerHigh :|
      && BoxOf(s.bands[i], n, low, high) && BoxOf(s.bands[j], n, outerLow, outerHigh)
      && BoxInside(low, high, outerLow, outerHigh) && (low != outerLow || high != outerHigh);
    if i == j {
      BoxesAlike(s.bands[i], s.bands[i], n, low, high, outerLow, outerHigh);
    } else if s.chosen == i {
      assert NotLarger(s.bands, n, i, j);
      var u: nat, v: nat :| HasVolume(s.bands[i], n, u) && HasVolume(s.bands[j], n, v) && v <= u;
      VolumeOfBand(s.bands[i], n, u, low, high);
      VolumeOfBand(s.bands[j], n, v, outerLow, outerHigh);
      VolumeCounts(low, high);
      VolumeCounts(outerLow, outerHigh);
      InsideIsSmaller(low, high, outerLow, outerHigh);
    }
  }

  lemma {:induction false} ProductFromFront(size: seq<nat>, n: nat)
    requires n < |size|
    ensures Product(size, n + 1) == size[0] * Product(size[1..], n)
  {
    if n > 0 {
      ProductFromFront(size, n - 1);
      assert size[1..][n - 1] == size[n];
      Regroup(size[0], Product(size[1..], n - 1), size[n]);
    } else {
      assert Product(size, 1) == Product(size, 0) * size[0];
    }
  }

  lemma Regroup(a: nat, b: nat, c: nat)
    ensures a * b * c == a * (b * c)
  {
  }

  lemma SplitGrid(c: Index, size: seq<nat>)
    requires size != [] && c != []
    ensures Inside(c, size) <==> 0 <= c[0] < size[0] && Inside(c[1..], size[1..])
  {
    if 0 <= c[0] < size[0] && Inside(c[1..], size[1..]) {
      forall k | 0 <= k < |size|
        ensures 0 <= c[k] < size[k]
      {
        if k > 0 {
          assert 0 <= c[1..][k - 1] < size[1..][k - 1];
        }
      }
    }
  }

  lemma CellsFromTails(size: seq<nat>, c: Index)
    requires size != []
    ensures c in Cells(size) <==> c != [] && 0 <= c[0] < size[0] && c[1..] in Cells(size[1..])
  {
    if c != [] {
      SplitGrid(c, size);
    }
  }

  lemma CellsByFirst(size: seq<nat>)
    requires size != []
    ensures |Cells(size)| == size[0] * |Cells(size[1..])|
  {
    forall c: Index
      ensures c in Cells(size) <==> c != [] && 0 <= c[0] < size[0] && c[1..] in Cells(size[1..])
    {
      CellsFromTails(size, c);
    }
    MoreAxes(0, size[0], Cells(size[1..]), Cells(size));
  }

  /** The linear size of a grid is the number of its cells. */
  lemma {:induction false} CellsCount(size: seq<nat>)
    ensures |Cells(size)| == LinearSize(size)
    decreases |size|
  {
    if size != [] {
      CellsCount(size[1..]);
      ProductFromFront(size, |size| - 1);
      CellsByFirst(size);
    }
  }
}
