/** The initial narrow band: dilation of each boundary component, split into outer and inner bands. */
module Seeds {
  import opened Wrappers
  import opened Grids
  import opened Marching
  import opened Neighborhoods
  import opened Components

  datatype DilationCell = Untouched | Occupied | Dilated

  /** The dilation grid is padded by one cell on every side. */
  function Up(c: Index): (d: Index)
    ensures |d| == |c|
  {
    seq(|c|, k requires 0 <= k < |c| => c[k] + 1)
  }

  function Down(d: Index): (c: Index)
    ensures |c| == |d|
  {
    seq(|d|, k requires 0 <= k < |d| => d[k] - 1)
  }

  function Padded(size: seq<nat>): (padded: seq<nat>)
    ensures |padded| == |size| && (ValidSize(size) ==> ValidSize(padded))
  {
    seq(|size|, k requires 0 <= k < |size| => size[k] + 2)
  }

  lemma UpDown(c: Index)
    ensures Down(Up(c)) == c && Up(Down(c)) == c
  {
  }

  lemma UpPlus(c: Index, o: Index)
    ensures Up(Plus(c, o)) == Plus(Up(c), o)
  {
  }

  lemma LinkedUp(offsets: seq<Index>, a: Index, b: Index)
    ensures Linked(offsets, Up(a), Up(b)) <==> Linked(offsets, a, b)
  {
    if Linked(offsets, a, b) {
      var o :| o in offsets && b == Plus(a, o);
      UpPlus(a, o);
    }
    if Linked(offsets, Up(a), Up(b)) {
      var o :| o in offsets && Up(b) == Plus(Up(a), o);
      UpPlus(a, o);
      UpDown(b);
      UpDown(Plus(a, o));
    }
  }

  /** Offsets of at most one cell per dimension. */
  ghost predicate SmallOffsets(offsets: seq<Index>, n: nat)
  {
    forall o :: o in offsets ==> |o| == n && forall k :: 0 <= k < n ==> -1 <= o[k] <= 1
  }

  lemma PaddedInside(c: Index, o: Index, size: seq<nat>)
    requires Inside(c, size) && |o| == |size| && forall k :: 0 <= k < |o| ==> -1 <= o[k] <= 1
    ensures Inside(Plus(Up(c), o), Padded(size)) && Inside(Up(c), Padded(size))
  {
  }

  /** d is not on the shifted list, but linked from a cell of it. */
  ghost predicate DilatedFrom(list: seq<Index>, offsets: seq<Index>, d: Index)
  {
    d !in list && exists k :: k in list && Linked(offsets, k, d)
  }

  type DilationGrid = Grid<DilationCell>

  /** The dilation grid marks the list, and as dilated exactly the cells collected so far. */
  ghost predicate Marks(cells: map<Index, DilationCell>, list: seq<Index>, dilated: seq<Index>)
  {
    && (forall c :: c in list || c in dilated ==> c in cells)
    && forall c :: c in cells ==>
         cells[c] == if c in list then Occupied else if c in dilated then Dilated else Untouched
  }

  /** Everything collected is dilated from the list, and the first i cells have all their neighbours collected. */
  ghost predicate DilatedUpTo(list: seq<Index>, offsets: seq<Index>, dilated: seq<Index>, i: nat)
    requires i <= |list|
  {
    && (forall d :: d in dilated ==> DilatedFrom(list, offsets, d))
    && forall j, d :: 0 <= j < i && Linked(offsets, list[j], d) ==> d in list || d in dilated
  }

  ghost predicate DilatedAlso(list: seq<Index>, offsets: seq<Index>, dilated: seq<Index>, i: nat, m: nat)
    requires i < |list| && m <= |offsets|
  {
    && DilatedUpTo(list, offsets, dilated, i)
    && forall l :: 0 <= l < m ==> Plus(list[i], offsets[l]) in list || Plus(list[i], offsets[l]) in dilated
  }

  lemma DilateCollects(list: seq<Index>, offsets: seq<Index>, dilated: seq<Index>, i: nat, m: nat)
    requires i < |list| && m < |offsets| && DilatedAlso(list, offsets, dilated, i, m)
    ensures Plus(list[i], offsets[m]) !in list ==>
              DilatedAlso(list, offsets, dilated + [Plus(list[i], offsets[m])], i, m + 1)
    ensures Plus(list[i], offsets[m]) in list || Plus(list[i], offsets[m]) in dilated ==>
              DilatedAlso(list, offsets, dilated, i, m + 1)
  {
    assert Linked(offsets, list[i], Plus(list[i], offsets[m]));
  }

  lemma DilateRow(list: seq<Index>, offsets: seq<Index>, dilated: seq<Index>, i: nat)
    requires i < |list| && DilatedAlso(list, offsets, dilated, i, |offsets|)
    ensures DilatedUpTo(list, offsets, dilated, i + 1)
  {
    forall d | Linked(offsets, list[i], d)
      ensures d in list || d in dilated
    {
      var o :| o in offsets && d == Plus(list[i], o);
      var l :| 0 <= l < |offsets| && offsets[l] == o;
    }
  }

  /** Tags one neighbour of a cell as dilated, when it is background, and collects it. */
  method DilateNeighbor(grid: DilationGrid, list: seq<Index>, offsets: seq<Index>, i: nat, m: nat, before: seq<Index>)
    returns (dilated: seq<Index>)
    requires grid.Valid() && i < |list| && m < |offsets| && Marks(grid.contents, list, before)
    requires DilatedAlso(list, offsets, before, i, m) && Inside(Plus(list[i], offsets[m]), grid.size)
    modifies grid`contents, grid.cells
    ensures grid.Valid() && Marks(grid.contents, list, dilated) && DilatedAlso(list, offsets, dilated, i, m + 1)
  {
    var neighbor := Plus(list[i], offsets[m]);
    DilateCollects(list, offsets, before, i, m);
    dilated := before;
    var tag := grid.Cell(neighbor);
    if tag == Untouched {
      grid.SetCell(neighbor, Dilated);
      dilated := dilated + [neighbor];
    }
  }

  /** Tags the background neighbours of one cell as dilated and collects them. */
  method DilateCell(grid: DilationGrid, list: seq<Index>, offsets: seq<Index>, i: nat, before: seq<Index>)
    returns (dilated: seq<Index>)
    requires grid.Valid() && i < |list| && Marks(grid.contents, list, before)
    requires DilatedUpTo(list, offsets, before, i)
    requires forall o :: o in offsets ==> Inside(Plus(list[i], o), grid.size)
    modifies grid`contents, grid.cells
    ensures grid.Valid() && Marks(grid.contents, list, dilated) && DilatedUpTo(list, offsets, dilated, i + 1)
  {
    dilated := before;
    for m := 0 to |offsets|
      invariant grid.Valid() && Marks(grid.contents, list, dilated)
      invariant DilatedAlso(list, offsets, dilated, i, m)
    {
      dilated := DilateNeighbor(grid, list, offsets, i, m, dilated);
    }
    DilateRow(list, offsets, dilated, i);
  }

  /** A grid that marks the list as occupied. */
  method OccupyCells(list: seq<Index>, size: seq<nat>) returns (grid: DilationGrid)
    requires ValidSize(size) && forall c :: c in list ==> Inside(c, size)
    ensures grid.Valid() && fresh(grid) && fresh(grid.cells) && grid.size == size
    ensures Marks(grid.contents, list, [])
  {
    var n := LinearSize(size);
    var buffer := new DilationCell[n](_ => Untouched);
    grid := new Grid<DilationCell>(size, buffer);
    UniformShows(size, buffer[..], grid.contents, Untouched);
    for i := 0 to |list|
      invariant grid.Valid() && grid.cells == buffer && grid.size == size
      invariant Marks(grid.contents, list[..i], [])
    {
      grid.SetCell(list[i], Occupied);
      assert list[..i + 1] == list[..i] + [list[i]];
    }
    assert list[..|list|] == list;
  }

  method DilateAll(grid: DilationGrid, list: seq<Index>, offsets: seq<Index>) returns (dilated: seq<Index>)
    requires grid.Valid() && Marks(grid.contents, list, [])
    requires forall c, o :: c in list && o in offsets ==> Inside(Plus(c, o), grid.size)
    modifies grid`contents, grid.cells
    ensures forall d :: d in dilated <==> DilatedFrom(list, offsets, d)
  {
    dilated := [];
    for i := 0 to |list|
      invariant grid.Valid() && Marks(grid.contents, list, dilated)
      invariant DilatedUpTo(list, offsets, dilated, i)
    {
      dilated := DilateCell(grid, list, offsets, i, dilated);
    }
  }

  ghost function UpList(cells: seq<Index>): (list: seq<Index>)
    ensures |list| == |cells|
  {
    seq(|cells|, i requires 0 <= i < |cells| => Up(cells[i]))
  }

  /**
   The bands around a component on the padded grid: the cells linked from it, split into parts
   connected by the band offsets.
   */
  method DilationBands(cells: seq<Index>, size: seq<nat>, dilationOffsets: seq<Index>, bandOffsets: seq<Index>)
    returns (bands: seq<seq<Index>>, ghost owner: map<Index, nat>)
    requires ValidSize(size) && SmallOffsets(dilationOffsets, |size|) && forall c :: c in cells ==> Inside(c, size)
    ensures Numbered(bandOffsets, bands, owner)
    ensures forall d :: d in owner <==> DilatedFrom(UpList(cells), dilationOffsets, d)
    ensures SettledBut(bandOffsets, owner.Keys, owner, [])
  {
    if cells == [] {
      return [], map[];
    }
    var padded := Padded(size);
    var list := seq(|cells|, i requires 0 <= i < |cells| => Up(cells[i]));
    forall c, o | c in list && o in dilationOffsets
      ensures Inside(c, padded) && Inside(Plus(c, o), padded)
    {
      var i :| 0 <= i < |cells| && list[i] == c;
      assert cells[i] in cells;
      PaddedInside(cells[i], o, size);
    }
    forall c | c in list
      ensures Inside(c, padded)
    {
      var i :| 0 <= i < |cells| && list[i] == c;
      assert cells[i] in cells;
    }
    var grid := OccupyCells(list, padded);
    var dilated := DilateAll(grid, list, dilationOffsets);
    forall d | d in dilated
      ensures Inside(d, padded)
    {
      var k :| k in list && Linked(dilationOffsets, k, d);
    }
    bands, owner := ConnectedComponents(dilated, padded, bandOffsets);
    assert list == UpList(cells);
  }
}
