/** The two seed lists of the march, and the cells they cover together. */
module NarrowBandSeeds {
  import opened Wrappers
  import opened Grids
  import opened Marching
  import opened Neighborhoods
  import opened Components
  import opened Seeds

  ghost predicate Bordering(cells: seq<Index>, c: Index)
  {
    exists b :: b in cells && Adjacent(c, b)
  }

  type MaskGrid = Grid<int>

  ghost predicate Masks(mask: map<Index, int>, size: seq<nat>, cells: seq<Index>)
  {
    && (forall c :: c in mask <==> Inside(c, size))
    && (forall c :: c in cells ==> c in mask)
    && forall c :: c in mask ==> (mask[c] == 1 <==> c in cells)
  }

  method BoundaryMask(cells: seq<Index>, size: seq<nat>) returns (grid: MaskGrid)
    requires ValidSize(size) && forall c :: c in cells ==> Inside(c, size)
    ensures grid.Valid() && fresh(grid) && grid.size == size && Masks(grid.contents, size, cells)
  {
    var n := LinearSize(size);
    var buffer := new int[n](_ => 0);
    grid := new Grid<int>(size, buffer);
    UniformShows(size, buffer[..], grid.contents, 0);
    for i := 0 to |cells|
      invariant grid.Valid() && grid.cells == buffer && grid.size == size
      invariant Masks(grid.contents, size, cells[..i])
    {
      grid.SetCell(cells[i], 1);
      assert cells[..i + 1] == cells[..i] + [cells[i]];
    }
    assert cells[..|cells|] == cells;
  }

  /** Whether a boundary cell shares a face with c: +1 before -1 on each axis. */
  method HasBoundaryFace(mask: MaskGrid, c: Index, ghost cells: seq<Index>) returns (found: bool)
    requires mask.Valid() && Masks(mask.contents, mask.size, cells) && |c| == |mask.size|
    ensures found <==> Bordering(cells, c)
  {
    for axis := 0 to |c|
      invariant forall b, k: nat :: k < axis && AdjacentOn(c, b, k) ==> b !in cells
    {
      var neighbor := c[axis := c[axis] + 1];
      assert AdjacentOn(c, neighbor, axis);
      if Inside(neighbor, mask.size) {
        var tag := mask.Cell(neighbor);
        if tag == 1 {
          return true;
        }
      }
      neighbor := neighbor[axis := neighbor[axis] - 2];
      assert neighbor == Shift(c, axis, -1) && AdjacentOn(c, neighbor, axis);
      if Inside(neighbor, mask.size) {
        var tag := mask.Cell(neighbor);
        if tag == 1 {
          return true;
        }
      }
    }
    found := false;
  }

  /** The cells of a band that lie in the grid and share a face with a boundary cell. */
  method NarrowBandDilationBandCells(band: seq<Index>, mask: MaskGrid,
                                     ghost cells: seq<Index>) returns (narrow: seq<Index>)
    requires mask.Valid() && Masks(mask.contents, mask.size, cells)
    ensures forall c :: c in narrow <==> Up(c) in band && Inside(c, mask.size) && Bordering(cells, c)
  {
    narrow := [];
    for i := 0 to |band|
      invariant forall c :: c in narrow <==> Up(c) in band[..i] && Inside(c, mask.size) && Bordering(cells, c)
    {
      var c := Down(band[i]);
      UpDown(band[i]);
      DownUp(band[i]);
      assert band[..i + 1] == band[..i] + [band[i]];
      if Inside(c, mask.size) {
        var found := HasBoundaryFace(mask, c, cells);
        if found {
          narrow := narrow + [c];
        }
      }
    }
    assert band[..|band|] == band;
  }

  lemma DownUp(d: Index)
    ensures Up(Down(d)) == d && forall c: Index :: Up(c) == d ==> c == Down(d)
  {
    forall c: Index | Up(c) == d
      ensures c == Down(d)
    {
      UpDown(c);
    }
  }

  function Min(a: int, b: int): int
  {
    if b < a then b else a
  }

  function Max(a: int, b: int): int
  {
    if a < b then b else a
  }

  ghost predicate Attained(cells: seq<Index>, n: nat, k: nat, v: int)
    requires forall c :: c in cells ==> |c| == n
  {
    k < n && exists c :: c in cells && c[k] == v
  }

  /** Smallest and largest coordinate per dimension. */
  ghost predicate BoxOf(cells: seq<Index>, n: nat, low: Index, high: Index)
    requires forall c :: c in cells ==> |c| == n
  {
    && |low| == |high| == n
    && (forall c, k :: c in cells && 0 <= k < n ==> low[k] <= c[k] <= high[k])
    && forall k :: 0 <= k < n ==> Attained(cells, n, k, low[k]) && Attained(cells, n, k, high[k])
  }

  method BoundingBox(cells: seq<Index>, n: nat) returns (low: Index, high: Index)
    requires cells != [] && forall c :: c in cells ==> |c| == n
    ensures BoxOf(cells, n, low, high)
  {
    low, high := cells[0], cells[0];
    for i := 1 to |cells|
      invariant |low| == |high| == n
      invariant forall j, k :: 0 <= j < i && 0 <= k < n ==> low[k] <= cells[j][k] <= high[k]
      invariant forall k :: 0 <= k < n ==> Attained(cells, n, k, low[k]) && Attained(cells, n, k, high[k])
    {
      ghost var low0, high0 := low, high;
      var c := cells[i];
      low, high := seq(n, k requires 0 <= k < n && |low| == n && |c| == n => Min(low[k], c[k])),
                   seq(n, k requires 0 <= k < n && |high| == n && |c| == n => Max(high[k], c[k]));
      forall k | 0 <= k < n
        ensures Attained(cells, n, k, low[k]) && Attained(cells, n, k, high[k])
      {
        assert Attained(cells, n, k, low0[k]) && Attained(cells, n, k, high0[k]);
        assert Attained(cells, n, k, c[k]);
      }
    }
  }

  /** Number of cells in a box. */
  function HyperVolume(low: Index, high: Index): (v: nat)
    requires |low| == |high| && forall k :: 0 <= k < |low| ==> low[k] <= high[k]
  {
    if low == [] then 1 else (high[0] - low[0] + 1) * HyperVolume(low[1..], high[1..])
  }

  ghost predicate IsVolume(low: Index, high: Index, v: nat)
  {
    |low| == |high| && (forall k :: 0 <= k < |low| ==> low[k] <= high[k]) && v == HyperVolume(low, high)
  }

  /** The volume of the bounding box of some cells. */
  ghost predicate HasVolume(cells: seq<Index>, n: nat, v: nat)
  {
    (forall c :: c in cells ==> |c| == n) && exists low, high :: BoxOf(cells, n, low, high) && IsVolume(low, high, v)
  }

  /** A band by number, with the volume of its bounding box. */
  datatype Sized = Sized(band: nat, volume: nat)

  ghost predicate SizedRight(bands: seq<seq<Index>>, n: nat, x: Sized)
  {
    x.band < |bands| && HasVolume(bands[x.band], n, x.volume)
  }

  ghost predicate Descending(list: seq<Sized>)
  {
    forall a, b :: 0 <= a < b < |list| ==> list[a].volume >= list[b].volume
  }

  /** Inserts into a list in descending order of volume. */
  function Insert(x: Sized, sorted: seq<Sized>): (r: seq<Sized>)
    requires Descending(sorted)
    ensures Descending(r) && |r| == |sorted| + 1
    ensures forall p :: p in r <==> p in sorted || p == x
  {
    if sorted == [] then [x]
    else if x.volume > sorted[0].volume then [x] + sorted
    else
      assert sorted == [sorted[0]] + sorted[1..];
      var rest := Insert(x, sorted[1..]);
      assert forall p :: p in rest ==> p.volume <= sorted[0].volume;
      [sorted[0]] + rest
  }

  ghost predicate Listed(order: seq<Sized>, i: nat)
  {
    exists k :: 0 <= k < |order| && order[k].band == i
  }

  /** Every band once, in descending order of the volume of the bounding box. */
  ghost predicate OrderOf(bands: seq<seq<Index>>, n: nat, order: seq<Sized>, m: nat)
  {
    && Descending(order) && |order| == m
    && (forall i: nat :: i < m ==> Listed(order, i))
    && forall x :: x in order ==> x.band < m && SizedRight(bands, n, x)
  }

  method BandsByVolume(bands: seq<seq<Index>>, n: nat) returns (order: seq<Sized>)
    requires forall i, c :: 0 <= i < |bands| && c in bands[i] ==> |c| == n
    requires forall i :: 0 <= i < |bands| ==> bands[i] != []
    ensures OrderOf(bands, n, order, |bands|)
  {
    order := [];
    for i := 0 to |bands|
      invariant OrderOf(bands, n, order, i)
    {
      var low, high := BoundingBox(bands[i], n);
      forall k | 0 <= k < n
        ensures low[k] <= high[k]
      {
        assert bands[i][0] in bands[i];
      }
      var x := Sized(i, HyperVolume(low, high));
      assert IsVolume(low, high, x.volume);
      OrderGrows(bands, n, order, i, x);
      order := Insert(x, order);
    }
  }

  lemma OrderGrows(bands: seq<seq<Index>>, n: nat, order: seq<Sized>, i: nat, x: Sized)
    requires OrderOf(bands, n, order, i) && x.band == i && SizedRight(bands, n, x)
    ensures OrderOf(bands, n, Insert(x, order), i + 1)
  {
    InsertLists(x, order);
  }

  lemma InsertLists(x: Sized, sorted: seq<Sized>)
    requires Descending(sorted)
    ensures forall j: nat :: Listed(sorted, j) || j == x.band ==> Listed(Insert(x, sorted), j)
  {
    var r := Insert(x, sorted);
    forall j: nat | Listed(sorted, j) || j == x.band
      ensures Listed(r, j)
    {
      var p: Sized;
      if j == x.band {
        p := x;
      } else {
        var k :| 0 <= k < |sorted| && sorted[k].band == j;
        p := sorted[k];
      }
      assert p in r;
    }
  }

  /** A cell of the grid that is not boundary but shares a face with a boundary cell. */
  ghost predicate Seed(boundary: seq<Index>, size: seq<nat>, c: Index)
  {
    Inside(c, size) && c !in boundary && Bordering(boundary, c)
  }

  /** A face step is one of the vertex offsets. */
  lemma AdjacentIsLinked(offsets: seq<Index>, n: nat, b: Index, c: Index)
    requires |b| == n && Adjacent(c, b) && forall o: Index :: o in offsets <==> VertexOffset(o, n)
    ensures Linked(offsets, b, c)
  {
    var axis: nat :| AdjacentOn(c, b, axis);
    var o := Unit(n, axis, c[axis] - b[axis]);
    assert o[axis] != 0;
    assert VertexOffset(o, n);
    assert c == Plus(b, o);
  }

  lemma VertexOffsetsSymmetric(offsets: seq<Index>, n: nat)
    requires forall o: Index :: o in offsets <==> VertexOffset(o, n)
    ensures Symmetric(offsets) && SmallOffsets(offsets, n)
  {
    forall o | o in offsets
      ensures Negated(o) in offsets
    {
      var k :| 0 <= k < n && o[k] != 0;
      assert Negated(o)[k] != 0;
    }
  }

  lemma FaceOffsetsSymmetric(faces: seq<Index>, n: nat)
    requires forall o: Index :: o in faces <==> FaceOffset(o, n)
    ensures Symmetric(faces)
  {
    forall o | o in faces
      ensures Negated(o) in faces
    {
      var axis: nat :| axis < n && (o == Unit(n, axis, 1) || o == Unit(n, axis, -1));
      assert Negated(o) == Unit(n, axis, -o[axis]);
      assert FaceOffset(Negated(o), n);
    }
  }

  /** A seed next to boundary cell b lies in a dilation band of b's component. */
  lemma SeedIsDilated(offsets: seq<Index>, n: nat, boundary: seq<Index>, size: seq<nat>, component: seq<Index>,
                      b: Index, c: Index)
    requires |size| == n && forall o: Index :: o in offsets <==> VertexOffset(o, n)
    requires Seed(boundary, size, c) && b in component && |b| == n && Adjacent(c, b)
    requires forall x :: x in component ==> x in boundary
    ensures DilatedFrom(UpList(component), offsets, Up(c))
  {
    AdjacentIsLinked(offsets, n, b, c);
    LinkedUp(offsets, b, c);
    UpListMembers(component, b);
    UpListMembers(component, c);
  }

  lemma UpListMembers(cells: seq<Index>, c: Index)
    ensures Up(c) in UpList(cells) <==> c in cells
  {
    if c in cells {
      var i :| 0 <= i < |cells| && cells[i] == c;
      assert UpList(cells)[i] == Up(c);
    }
    if Up(c) in UpList(cells) {
      var i :| 0 <= i < |cells| && UpList(cells)[i] == Up(c);
      UpDown(c);
      UpDown(cells[i]);
    }
  }

  /** No cell of a dilation band is boundary, because components are maximal. */
  lemma DilatedIsNoBoundary(offsets: seq<Index>, boundary: seq<Index>, components: seq<seq<Index>>,
                            owner: map<Index, nat>,
                            k: nat, c: Index)
    requires Symmetric(offsets) && Numbered(offsets, components, owner) && owner.Keys == CellSet(boundary)
    requires SettledBut(offsets, owner.Keys, owner, []) && k < |components|
    requires DilatedFrom(UpList(components[k]), offsets, Up(c))
    ensures c !in boundary
  {
    var component := components[k];
    assert Owns(component, owner, k);
    var d :| d in UpList(component) && Linked(offsets, d, Up(c));
    var i :| 0 <= i < |component| && UpList(component)[i] == d;
    LinkedUp(offsets, component[i], c);
    UpListMembers(component, c);
    if c in boundary {
      LinkedSameOwner(offsets, owner.Keys, owner, component[i], c);
    }
  }

  lemma {:induction false} RightmostCell(cells: seq<Index>) returns (c: Index)
    requires cells != [] && forall d :: d in cells ==> |d| > 0
    ensures c in cells && forall d :: d in cells ==> d[0] <= c[0]
  {
    if |cells| == 1 {
      c := cells[0];
    } else {
      c := RightmostCell(cells[1..]);
      if c[0] < cells[0][0] {
        c := cells[0];
      }
    }
  }

  /** The outer dilation band is never empty: beyond the rightmost cell there is always room. */
  lemma BandsExist(cells: seq<Index>, n: nat, offsets: seq<Index>) returns (d: Index)
    requires cells != [] && n > 0 && forall c :: c in cells ==> |c| == n
    requires forall o: Index :: o in offsets <==> VertexOffset(o, n)
    ensures DilatedFrom(UpList(cells), offsets, d)
  {
    var c := RightmostCell(cells);
    var x := Shift(c, 0, 1);
    assert AdjacentOn(c, x, 0);
    AdjacentOnSymmetric(c, x, 0);
    AdjacentIsLinked(offsets, n, c, x);
    LinkedUp(offsets, c, x);
    UpListMembers(cells, c);
    UpListMembers(cells, x);
    d := Up(x);
  }

  /** The cells of the grid that face the boundary and lie in a band. */
  ghost predicate BandSeed(owner: map<Index, nat>, size: seq<nat>, boundary: seq<Index>, c: Index)
  {
    Up(c) in owner && Inside(c, size) && Bordering(boundary, c)
  }

  /** The same for one of the bands. */
  ghost predicate InBand(bands: seq<seq<Index>>, j: nat, size: seq<nat>, boundary: seq<Index>, c: Index)
  {
    j < |bands| && Inside(c, size) && Bordering(boundary, c) && Up(c) in bands[j]
  }

  /** For some band other than the chosen one. */
  ghost predicate InOther(bands: seq<seq<Index>>, chosen: nat, size: seq<nat>, boundary: seq<Index>, c: Index)
  {
    exists j: nat :: j != chosen && InBand(bands, j, size, boundary, c)
  }

  /** The box of band j is not larger than that of the chosen band. */
  ghost predicate NotLarger(bands: seq<seq<Index>>, n: nat, chosen: nat, j: nat)
    requires chosen < |bands| && j < |bands|
  {
    exists u: nat, v: nat :: HasVolume(bands[chosen], n, u) && HasVolume(bands[j], n, v) && v <= u
  }

  /** The bands around a component, whose are the cells, and which band is the outer one. */
  datatype Split = Split(bands: seq<seq<Index>>, owner: map<Index, nat>, chosen: nat)

  /** A band that has the largest box, or is the only one. */
  ghost predicate Largest(s: Split, n: nat)
  {
    s.chosen < |s.bands| && (|s.bands| > 1 ==> forall j :: 0 <= j < |s.bands| ==> NotLarger(s.bands, n, s.chosen, j))
  }

  lemma BandOf(offsets: seq<Index>, bands: seq<seq<Index>>, owner: map<Index, nat>, d: Index)
    requires Numbered(offsets, bands, owner)
    ensures d in owner <==> exists j: nat :: j < |bands| && d in bands[j]
  {
    if d in owner {
      assert Owns(bands[owner[d]], owner, owner[d]) && d in bands[owner[d]];
    }
    if j: nat :| j < |bands| && d in bands[j] {
      assert Owns(bands[j], owner, j);
    }
  }

  /** The chosen band and the others hold all cells of the bands. */
  lemma SplitCovers(offsets: seq<Index>, s: Split, size: seq<nat>, boundary: seq<Index>, c: Index)
    requires Numbered(offsets, s.bands, s.owner)
    ensures InBand(s.bands, s.chosen, size, boundary, c) || InOther(s.bands, s.chosen, size, boundary, c) <==>
              BandSeed(s.owner, size, boundary, c)
  {
    BandOf(offsets, s.bands, s.owner, Up(c));
    if BandSeed(s.owner, size, boundary, c) {
      var j: nat :| j < |s.bands| && Up(c) in s.bands[j];
      assert InBand(s.bands, j, size, boundary, c);
    }
  }

  ghost predicate Taken(bands: seq<seq<Index>>, order: seq<Sized>, k: nat, size: seq<nat>, boundary: seq<Index>,
                        c: Index)
    requires k <= |order|
  {
    exists j :: 1 <= j < k && InBand(bands, order[j].band, size, boundary, c)
  }

  /** Band i is listed at one of the given places. */
  ghost predicate ListedAt(order: seq<Sized>, places: set<nat>, i: nat)
  {
    exists k :: k in places && k < |order| && order[k].band == i
  }

  lemma {:induction false} EnoughPlaces(order: seq<Sized>, places: set<nat>, m: nat)
    requires forall i: nat :: i < m ==> ListedAt(order, places, i)
    ensures |places| >= m
    decreases m
  {
    if m > 0 {
      assert ListedAt(order, places, m - 1);
      var k :| k in places && k < |order| && order[k].band == m - 1;
      forall i: nat | i < m - 1
        ensures ListedAt(order, places - {k}, i)
      {
        assert ListedAt(order, places, i);
        var j :| j in places && j < |order| && order[j].band == i;
        assert j in places - {k};
      }
      EnoughPlaces(order, places - {k}, m - 1);
    }
  }

  ghost function Places(n: nat): (s: set<nat>)
    ensures forall k: nat :: k in s <==> k < n
    ensures |s| == n
  {
    if n == 0 then {} else Places(n - 1) + {n - 1}
  }

  lemma StillListed(order: seq<Sized>, places: set<nat>, a: nat, b: nat, i: nat)
    requires Listed(order, i) && a < b < |order| && order[a].band == order[b].band
    requires forall k: nat :: k in places <==> k < |order|
    ensures ListedAt(order, places - {b}, i)
  {
    var k: nat :| k < |order| && order[k].band == i;
    var j := if k == b then a else k;
    assert j in places - {b} && order[j].band == i;
  }

  /** As many entries as bands, and every band listed: no band is listed twice. */
  lemma ListedOnce(bands: seq<seq<Index>>, n: nat, order: seq<Sized>, a: nat, b: nat)
    requires OrderOf(bands, n, order, |bands|) && a < b < |order|
    ensures order[a].band != order[b].band
  {
    if order[a].band == order[b].band {
      var places := Places(|order|);
      assert |places - {b}| == |order| - 1;
      forall i: nat | i < |bands|
        ensures ListedAt(order, places - {b}, i)
      {
        StillListed(order, places, a, b, i);
      }
      EnoughPlaces(order, places - {b}, |bands|);
    }
  }

  lemma OthersTaken(bands: seq<seq<Index>>, n: nat, order: seq<Sized>, size: seq<nat>, boundary: seq<Index>, c: Index)
    requires OrderOf(bands, n, order, |bands|) && |bands| > 0
    ensures Taken(bands, order, |order|, size, boundary, c) <==> InOther(bands, order[0].band, size, boundary, c)
  {
    if InOther(bands, order[0].band, size, boundary, c) {
      var i: nat :| i != order[0].band && InBand(bands, i, size, boundary, c);
      assert Listed(order, i);
      var k :| 0 <= k < |order| && order[k].band == i;
      assert InBand(bands, order[k].band, size, boundary, c);
    }
    if Taken(bands, order, |order|, size, boundary, c) {
      var k :| 1 <= k < |order| && InBand(bands, order[k].band, size, boundary, c);
      ListedOnce(bands, n, order, 0, k);
    }
  }

  lemma FirstIsLargest(bands: seq<seq<Index>>, n: nat, order: seq<Sized>, owner: map<Index, nat>)
    requires OrderOf(bands, n, order, |bands|) && |bands| > 0
    ensures Largest(Split(bands, owner, order[0].band), n)
  {
    assert order[0] in order;
    forall j | 0 <= j < |bands|
      ensures NotLarger(bands, n, order[0].band, j)
    {
      assert Listed(order, j);
      var k :| 0 <= k < |order| && order[k].band == j;
      assert order[k] in order && SizedRight(bands, n, order[0]) && SizedRight(bands, n, order[k]);
    }
  }

  /** Seeds of all but the largest band. */
  method InnerSeeds(bands: seq<seq<Index>>, order: seq<Sized>, mask: MaskGrid, ghost boundary: seq<Index>)
    returns (inner: seq<Index>)
    requires mask.Valid() && Masks(mask.contents, mask.size, boundary) && |order| > 0
    requires forall j :: 0 <= j < |order| ==> order[j].band < |bands|
    ensures forall c :: c in inner <==> Taken(bands, order, |order|, mask.size, boundary, c)
  {
    inner := [];
    for k := 1 to |order|
      invariant forall c :: c in inner <==> Taken(bands, order, k, mask.size, boundary, c)
    {
      var narrow := NarrowBandDilationBandCells(bands[order[k].band], mask, boundary);
      forall c
        ensures c in inner || c in narrow <==> Taken(bands, order, k + 1, mask.size, boundary, c)
      {
        assert c in narrow <==> InBand(bands, order[k].band, mask.size, boundary, c);
      }
      inner := inner + narrow;
    }
  }

  /** Seeds of one component: the band with the largest box is the outer one, the others are inner. */
  method SplitBands(bands: seq<seq<Index>>, ghost owner: map<Index, nat>, mask: MaskGrid, ghost boundary: seq<Index>,
                    ghost bandOffsets: seq<Index>)
    returns (outer: seq<Index>, inner: seq<Index>, ghost chosen: nat)
    requires mask.Valid() && Masks(mask.contents, mask.size, boundary)
    requires Numbered(bandOffsets, bands, owner) && |bands| > 0
    requires forall d :: d in owner ==> |d| == |mask.size|
    ensures Largest(Split(bands, owner, chosen), |mask.size|)
    ensures forall c :: c in outer <==> InBand(bands, chosen, mask.size, boundary, c)
    ensures forall c :: c in inner <==> InOther(bands, chosen, mask.size, boundary, c)
  {
    inner, chosen := [], 0;
    if |bands| == 1 {
      outer := NarrowBandDilationBandCells(bands[0], mask, boundary);
    } else {
      forall i, d | 0 <= i < |bands| && d in bands[i]
        ensures |d| == |mask.size|
      {
        assert Owns(bands[i], owner, i);
      }
      var order := BandsByVolume(bands, |mask.size|);
      assert forall k :: 0 <= k < |order| ==> order[k] in order;
      chosen := order[0].band;
      outer := NarrowBandDilationBandCells(bands[order[0].band], mask, boundary);
      inner := InnerSeeds(bands, order, mask, boundary);
      FirstIsLargest(bands, |mask.size|, order, owner);
      forall c
        ensures c in inner <==> InOther(bands, chosen, mask.size, boundary, c)
      {
        OthersTaken(bands, |mask.size|, order, mask.size, boundary, c);
      }
    }
  }

  /** c faces the boundary and lies in a dilation band of component j. */
  ghost predicate FromComponent(components: seq<seq<Index>>, offsets: seq<Index>, size: seq<nat>, boundary: seq<Index>,
                                j: nat, c: Index)
    requires j < |components|
  {
    DilatedFrom(UpList(components[j]), offsets, Up(c)) && Inside(c, size) && Bordering(boundary, c)
  }

  ghost predicate FromSome(components: seq<seq<Index>>, offsets: seq<Index>, size: seq<nat>, boundary: seq<Index>,
                           k: nat, c: Index)
    requires k <= |components|
  {
    exists j :: 0 <= j < k && FromComponent(components, offsets, size, boundary, j, c)
  }

  lemma SeedIffFromSome(offsets: seq<Index>, components: seq<seq<Index>>, owner: map<Index, nat>, size: seq<nat>,
                        boundary: seq<Index>, c: Index)
    requires forall o: Index :: o in offsets <==> VertexOffset(o, |size|)
    requires forall b :: b in boundary ==> Inside(b, size)
    requires Numbered(offsets, components, owner) && owner.Keys == CellSet(boundary)
    requires SettledBut(offsets, owner.Keys, owner, [])
    ensures Seed(boundary, size, c) <==> FromSome(components, offsets, size, boundary, |components|, c)
  {
    VertexOffsetsSymmetric(offsets, |size|);
    if Seed(boundary, size, c) {
      var b :| b in boundary && Adjacent(c, b);
      var j := owner[b];
      assert Owns(components[j], owner, j);
      SeedIsDilated(offsets, |size|, boundary, size, components[j], b, c);
      assert FromComponent(components, offsets, size, boundary, j, c);
    }
    if FromSome(components, offsets, size, boundary, |components|, c) {
      var j :| 0 <= j < |components| && FromComponent(components, offsets, size, boundary, j, c);
      DilatedIsNoBoundary(offsets, boundary, components, owner, j, c);
    }
  }

  /** A split of the cells dilated from a component into bands connected over faces, with the largest chosen. */
  ghost predicate SplitOf(component: seq<Index>, size: seq<nat>, offsets: seq<Index>, faces: seq<Index>, s: Split)
  {
    && Numbered(faces, s.bands, s.owner) && SettledBut(faces, s.owner.Keys, s.owner, [])
    && (forall d :: d in s.owner <==> DilatedFrom(UpList(component), offsets, d))
    && Largest(s, |size|)
  }

  /** Seeds of one connected component of the boundary. */
  method ComponentSeeds(component: seq<Index>, size: seq<nat>, offsets: seq<Index>, faces: seq<Index>, mask: MaskGrid,
                        ghost boundary: seq<Index>)
    returns (outer: seq<Index>, inner: seq<Index>, ghost s: Split)
    requires mask.Valid() && mask.size == size && Masks(mask.contents, size, boundary)
    requires component != [] && forall c :: c in component ==> Inside(c, size)
    requires forall o: Index :: o in offsets <==> VertexOffset(o, |size|)
    ensures SplitOf(component, size, offsets, faces, s)
    ensures forall c :: c in outer <==> InBand(s.bands, s.chosen, size, boundary, c)
    ensures forall c :: c in inner <==> InOther(s.bands, s.chosen, size, boundary, c)
  {
    VertexOffsetsSymmetric(offsets, |size|);
    var bands, owner := DilationBands(component, size, offsets, faces);
    var d := BandsExist(component, |size|, offsets);
    forall d | d in owner
      ensures |d| == |size|
    {
      var k :| k in UpList(component) && Linked(offsets, k, d);
    }
    ghost var chosen;
    outer, inner, chosen := SplitBands(bands, owner, mask, boundary, faces);
    s := Split(bands, owner, chosen);
  }

  /**
   The components of the boundary over all neighbours and who owns which cell, and how the bands around each
   component, connected over faces, are split.
   */
  datatype Plan = Plan(offsets: seq<Index>, faces: seq<Index>, components: seq<seq<Index>>, owner: map<Index, nat>,
                       splits: seq<Split>)

  /** Cell c comes from the largest band of one of the first k components. */
  ghost predicate FromLargest(plan: Plan, size: seq<nat>, boundary: seq<Index>, k: nat, c: Index)
    requires k <= |plan.splits|
  {
    exists j :: 0 <= j < k && InBand(plan.splits[j].bands, plan.splits[j].chosen, size, boundary, c)
  }

  /** Cell c comes from another band of one of them. */
  ghost predicate FromOther(plan: Plan, size: seq<nat>, boundary: seq<Index>, k: nat, c: Index)
    requires k <= |plan.splits|
  {
    exists j :: 0 <= j < k && InOther(plan.splits[j].bands, plan.splits[j].chosen, size, boundary, c)
  }

  /** A cell that faces the boundary in the largest band around one of its components. */
  ghost predicate OutsideSeed(plan: Plan, size: seq<nat>, boundary: seq<Index>, c: Index)
  {
    FromLargest(plan, size, boundary, |plan.splits|, c)
  }

  /** A cell that faces the boundary in another band. */
  ghost predicate InsideSeed(plan: Plan, size: seq<nat>, boundary: seq<Index>, c: Index)
  {
    FromOther(plan, size, boundary, |plan.splits|, c)
  }

  ghost predicate Splits(plan: Plan, size: seq<nat>, k: nat)
    requires k <= |plan.components|
  {
    && |plan.splits| == k
    && forall j :: 0 <= j < k ==> SplitOf(plan.components[j], size, plan.offsets, plan.faces, plan.splits[j])
  }

  /**
   The outside list holds the seeds from the largest band of each component, the inside list those from the others.
   */
  ghost predicate Sorted(plan: Plan, size: seq<nat>, boundary: seq<Index>, outside: seq<Index>, inside: seq<Index>)
  {
    && (forall c :: c in outside <==> OutsideSeed(plan, size, boundary, c))
    && (forall c :: c in inside <==> InsideSeed(plan, size, boundary, c))
  }

  /** The offsets of the plan are those of the cells that share a vertex, and those of the cells that share a face. */
  ghost predicate OffsetsOf(plan: Plan, n: nat)
  {
    && (forall o: Index :: o in plan.offsets <==> VertexOffset(o, n))
    && (forall o: Index :: o in plan.faces <==> FaceOffset(o, n))
  }

  /** The components of the boundary over all neighbours, and the bands around each, connected over faces. */
  ghost predicate PlanOf(boundary: seq<Index>, size: seq<nat>, plan: Plan)
  {
    && OffsetsOf(plan, |size|)
    && Numbered(plan.offsets, plan.components, plan.owner) && plan.owner.Keys == CellSet(boundary)
    && SettledBut(plan.offsets, plan.owner.Keys, plan.owner, [])
    && Splits(plan, size, |plan.components|)
  }

  /**
   The seed lists for marching outside and inside. Together they hold exactly the cells of the grid
   that are not boundary but share a face with a boundary cell; the outside list has those in the
   largest band around each component of the boundary.
   */
  method OutsideInsideNarrowBandIndices(boundary: seq<Index>, size: seq<nat>)
    returns (outside: seq<Index>, inside: seq<Index>, ghost plan: Plan)
    requires ValidSize(size) && forall c :: c in boundary ==> Inside(c, size)
    ensures forall c :: c in outside || c in inside <==> Seed(boundary, size, c)
    ensures Sorted(plan, size, boundary, outside, inside)
    ensures boundary != [] ==> PlanOf(boundary, size, plan)
  {
    outside, inside, plan := [], [], Plan([], [], [], map[], []);
    if boundary == [] {
      return;
    }
    var offsets := VertexNeighborOffsets(|size|);
    var components, owner := ConnectedComponents(boundary, size, offsets);
    forall k | 0 <= k < |components|
      ensures components[k] != [] && forall c :: c in components[k] ==> Inside(c, size)
    {
      assert Owns(components[k], owner, k);
    }
    var faces := FaceNeighborOffsets(|size|);
    outside, inside, plan := CollectSeeds(boundary, size, components, owner, offsets, faces);
    forall c
      ensures c in outside || c in inside <==> Seed(boundary, size, c)
    {
      SeedIffFromSome(offsets, components, owner, size, boundary, c);
      SortedIffSome(plan, size, boundary, |components|, c);
    }
  }

  lemma SortedIffSome(plan: Plan, size: seq<nat>, boundary: seq<Index>, k: nat, c: Index)
    requires k <= |plan.components| && Splits(plan, size, k)
    ensures FromLargest(plan, size, boundary, k, c) || FromOther(plan, size, boundary, k, c) <==>
              FromSome(plan.components, plan.offsets, size, boundary, k, c)
  {
    forall j | 0 <= j < k
      ensures InBand(plan.splits[j].bands, plan.splits[j].chosen, size, boundary, c)
              || InOther(plan.splits[j].bands, plan.splits[j].chosen, size, boundary, c) <==>
                FromComponent(plan.components, plan.offsets, size, boundary, j, c)
    {
      assert SplitOf(plan.components[j], size, plan.offsets, plan.faces, plan.splits[j]);
      SplitCovers(plan.faces, plan.splits[j], size, boundary, c);
    }
  }

  lemma SortedStep(plan: Plan, size: seq<nat>, boundary: seq<Index>, s: Split, outside: seq<Index>, inside: seq<Index>,
                   outer: seq<Index>, inner: seq<Index>)
    requires Sorted(plan, size, boundary, outside, inside)
    requires forall c :: c in outer <==> InBand(s.bands, s.chosen, size, boundary, c)
    requires forall c :: c in inner <==> InOther(s.bands, s.chosen, size, boundary, c)
    ensures Sorted(plan.(splits := plan.splits + [s]), size, boundary, outside + outer, inside + inner)
  {
    var more, n := plan.(splits := plan.splits + [s]), |plan.splits|;
    forall c
      ensures FromLargest(more, size, boundary, n + 1, c) <==> FromLargest(plan, size, boundary, n, c) || c in outer
      ensures FromOther(more, size, boundary, n + 1, c) <==> FromOther(plan, size, boundary, n, c) || c in inner
    {
      assert more.splits[n] == s && forall j :: 0 <= j < n ==> more.splits[j] == plan.splits[j];
    }
  }

  lemma SplitsStep(plan: Plan, size: seq<nat>, k: nat, s: Split)
    requires k < |plan.components| && Splits(plan, size, k)
    requires SplitOf(plan.components[k], size, plan.offsets, plan.faces, s)
    ensures Splits(plan.(splits := plan.splits + [s]), size, k + 1)
  {
  }

  method CollectSeeds(boundary: seq<Index>, size: seq<nat>, components: seq<seq<Index>>, ghost owner: map<Index, nat>,
                      offsets: seq<Index>, faces: seq<Index>)
    returns (outside: seq<Index>, inside: seq<Index>, ghost plan: Plan)
    requires ValidSize(size) && forall c :: c in boundary ==> Inside(c, size)
    requires forall k :: 0 <= k < |components| ==> components[k] != [] && forall c :: c in components[k] ==>
             Inside(c, size)
    requires forall o: Index :: o in offsets <==> VertexOffset(o, |size|)
    ensures plan.(splits := []) == Plan(offsets, faces, components, owner, []) && Splits(plan, size, |components|)
    ensures Sorted(plan, size, boundary, outside, inside)
  {
    outside, inside, plan := [], [], Plan(offsets, faces, components, owner, []);
    var mask := BoundaryMask(boundary, size);
    for k := 0 to |components|
      invariant mask.Valid() && mask.size == size && Masks(mask.contents, size, boundary)
      invariant plan.(splits := []) == Plan(offsets, faces, components, owner, []) && Splits(plan, size, k)
      invariant Sorted(plan, size, boundary, outside, inside)
    {
      var outer, inner, s := ComponentSeeds(components[k], size, offsets, faces, mask, boundary);
      SortedStep(plan, size, boundary, s, outside, inside, outer, inner);
      SplitsStep(plan, size, k, s);
      outside, inside, plan := outside + outer, inside + inner, plan.(splits := plan.splits + [s]);
    }
  }
}
