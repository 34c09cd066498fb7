/** Connected components of a list of cells, by flood fill over a label grid. */
module Components {
  import opened Wrappers
  import opened Grids

  datatype Label = Background | Foreground | Labelled

  /** Component-wise sum of a cell and an offset. */
  function Plus(c: Index, o: Index): (r: Index)
    ensures |c| == |o| ==> |r| == |c|
  {
    if |c| == |o| then seq(|c|, k requires 0 <= k < |c| => c[k] + o[k]) else c
  }

  ghost predicate Linked(offsets: seq<Index>, a: Index, b: Index)
  {
    exists o :: o in offsets && b == Plus(a, o)
  }

  /** Each cell after the first is linked from an earlier one. */
  ghost predicate Grown(offsets: seq<Index>, component: seq<Index>)
  {
    forall i :: 0 < i < |component| ==> exists j :: 0 <= j < i && Linked(offsets, component[j], component[i])
  }

  /** The component holds exactly the cells that are owned by number k. */
  ghost predicate Owns(component: seq<Index>, owner: map<Index, nat>, k: nat)
  {
    forall c :: c in component <==> c in owner && owner[c] == k
  }

  /** Every foreground cell linked from a is owned, by a component not numbered after a's. */
  ghost predicate Settled(offsets: seq<Index>, cells: set<Index>, owner: map<Index, nat>, a: Index)
  {
    a in owner && forall b :: b in cells && Linked(offsets, a, b) ==> b in owner && owner[b] <= owner[a]
  }

  ghost predicate SettledBut(offsets: seq<Index>, cells: set<Index>, owner: map<Index, nat>, pending: seq<Index>)
  {
    forall a :: a in owner && a !in pending ==> Settled(offsets, cells, owner, a)
  }

  /** The label grid tells owned, unowned and background cells apart. */
  ghost predicate Labels(labels: map<Index, Label>, cells: set<Index>, owner: map<Index, nat>)
  {
    && owner.Keys <= cells <= labels.Keys
    && forall c :: c in labels ==>
         labels[c] == if c in owner then Labelled else if c in cells then Foreground else Background
  }

  /** The components found so far, and who owns which cell. */
  ghost predicate Numbered(offsets: seq<Index>, components: seq<seq<Index>>, owner: map<Index, nat>)
  {
    && (forall c :: c in owner ==> owner[c] < |components|)
    && (forall k :: 0 <= k < |components| ==>
          && components[k] != [] && Owns(components[k], owner, k)
          && Distinct(components[k]) && Grown(offsets, components[k]))
  }

  type LabelGrid = Grid<Label>

  /** The component being filled: its cells, those whose neighbours are still to be visited, and all owners so far. */
  datatype Fill = Fill(component: seq<Index>, stack: seq<Index>, ghost owner: map<Index, nat>)

  ghost predicate Filling(offsets: seq<Index>, f: Fill, k: nat)
  {
    && Owns(f.component, f.owner, k) && Distinct(f.component) && Grown(offsets, f.component)
    && (forall c :: c in f.owner ==> f.owner[c] <= k)
    && forall c :: c in f.stack ==> c in f.component
  }

  ghost predicate Keeps(before: map<Index, nat>, after: map<Index, nat>)
  {
    forall c :: c in before ==> c in after && after[c] == before[c]
  }

  function Collect(f: Fill, c: Index, ghost k: nat): Fill
  {
    Fill(f.component + [c], f.stack + [c], f.owner[c := k])
  }

  /** Adding a cell linked from a member keeps the component well formed. */
  lemma FillingGrows(offsets: seq<Index>, f: Fill, k: nat, top: Index, c: Index)
    requires Filling(offsets, f, k) && top in f.component && Linked(offsets, top, c) && c !in f.owner
    ensures Filling(offsets, Collect(f, c, k), k)
  {
    var j :| 0 <= j < |f.component| && f.component[j] == top;
    var grown := f.component + [c];
    assert grown[j] == top && grown[|f.component|] == c;
    forall i | 0 < i < |grown|
      ensures exists j :: 0 <= j < i && Linked(offsets, grown[j], grown[i])
    {
      if i < |f.component| {
        var m :| 0 <= m < i && Linked(offsets, f.component[m], f.component[i]);
        assert grown[m] == f.component[m] && grown[i] == f.component[i];
      }
    }
  }

  /** What visiting the first j offsets from the cell top has achieved since f0. */
  ghost predicate Visited(offsets: seq<Index>, cells: set<Index>, top: Index, j: nat, f0: Fill, f: Fill, k: nat)
    requires j <= |offsets|
  {
    Filling(offsets, f, k) && top in f.component && Gained(offsets, cells, top, j, f0, f, k)
  }

  /** The neighbours over the first j offsets are owned, and whatever is newly owned waits on the stack. */
  ghost predicate Gained(offsets: seq<Index>, cells: set<Index>, top: Index, j: nat, f0: Fill, f: Fill, k: nat)
    requires j <= |offsets|
  {
    && Keeps(f0.owner, f.owner)
    && (forall i :: 0 <= i < j && Plus(top, offsets[i]) in cells ==> Plus(top, offsets[i]) in f.owner)
    && (forall c :: c in f.owner && c !in f0.owner ==> f.owner[c] == k && c in f.stack)
    && (forall c :: c in f0.stack ==> c in f.stack)
    && (f.owner == f0.owner ==> f.stack == f0.stack)
    && f0.component <= f.component
  }

  lemma GainedOne(offsets: seq<Index>, cells: set<Index>, top: Index, j: nat, f0: Fill, f: Fill, k: nat)
    requires j < |offsets| && Gained(offsets, cells, top, j, f0, f, k) && Plus(top, offsets[j]) !in f.owner
    ensures Gained(offsets, cells, top, j + 1, f0, Collect(f, Plus(top, offsets[j]), k), k)
  {
    var c := Plus(top, offsets[j]);
    assert c in Collect(f, c, k).owner && c !in f0.owner;
  }

  lemma VisitCollects(offsets: seq<Index>, cells: set<Index>, top: Index, j: nat, f0: Fill, f: Fill, k: nat)
    requires j < |offsets| && Visited(offsets, cells, top, j, f0, f, k) && Plus(top, offsets[j]) !in f.owner
    ensures Visited(offsets, cells, top, j + 1, f0, Collect(f, Plus(top, offsets[j]), k), k)
  {
    var c := Plus(top, offsets[j]);
    assert Linked(offsets, top, c);
    FillingGrows(offsets, f, k, top, c);
    GainedOne(offsets, cells, top, j, f0, f, k);
  }

  lemma GainedNone(offsets: seq<Index>, cells: set<Index>, top: Index, j: nat, f0: Fill, f: Fill, k: nat)
    requires j < |offsets| && Gained(offsets, cells, top, j, f0, f, k)
    requires Plus(top, offsets[j]) in cells ==> Plus(top, offsets[j]) in f.owner
    ensures Gained(offsets, cells, top, j + 1, f0, f, k)
  {
  }

  lemma VisitSkips(offsets: seq<Index>, cells: set<Index>, top: Index, j: nat, f0: Fill, f: Fill, k: nat)
    requires j < |offsets| && Visited(offsets, cells, top, j, f0, f, k)
    requires Plus(top, offsets[j]) in cells ==> Plus(top, offsets[j]) in f.owner
    ensures Visited(offsets, cells, top, j + 1, f0, f, k)
  {
    GainedNone(offsets, cells, top, j, f0, f, k);
  }

  lemma VisitSettles(offsets: seq<Index>, cells: set<Index>, top: Index, f0: Fill, f: Fill, k: nat)
    requires Visited(offsets, cells, top, |offsets|, f0, f, k)
    ensures Settled(offsets, cells, f.owner, top)
  {
  }

  lemma LabelsCollect(labels: map<Index, Label>, cells: set<Index>, f: Fill, c: Index, k: nat)
    requires Labels(labels, cells, f.owner) && c in labels && labels[c] == Foreground
    ensures c !in f.owner && Labels(labels[c := Labelled], cells, Collect(f, c, k).owner)
  {
  }

  lemma LabelsSkip(labels: map<Index, Label>, cells: set<Index>, f: Fill, c: Index)
    requires Labels(labels, cells, f.owner) && (c in labels ==> labels[c] != Foreground)
    ensures c in cells ==> c in f.owner
  {
  }

  /** Labels and collects a neighbour if it is in the foreground. */
  method VisitNeighbor(grid: LabelGrid, offsets: seq<Index>, top: Index, j: nat, ghost f0: Fill, f: Fill,
                       ghost cells: set<Index>, ghost k: nat)
    returns (f1: Fill)
    requires grid.Valid() && Labels(grid.contents, cells, f.owner)
    requires j < |offsets| && Visited(offsets, cells, top, j, f0, f, k)
    modifies grid`contents, grid.cells
    ensures grid.Valid() && Labels(grid.contents, cells, f1.owner)
    ensures Visited(offsets, cells, top, j + 1, f0, f1, k)
  {
    var neighbor := Plus(top, offsets[j]);
    var tag := Background;
    if Inside(neighbor, grid.size) {
      tag := grid.Cell(neighbor);
    }
    if tag == Foreground {
      LabelsCollect(grid.contents, cells, f, neighbor, k);
      VisitCollects(offsets, cells, top, j, f0, f, k);
      grid.SetCell(neighbor, Labelled);
      f1 := Collect(f, neighbor, k);
    } else {
      LabelsSkip(grid.contents, cells, f, neighbor);
      VisitSkips(offsets, cells, top, j, f0, f, k);
      f1 := f;
    }
  }

  /** Visits all neighbours of the cell taken from the stack. */
  method VisitNeighbors(grid: LabelGrid, offsets: seq<Index>, top: Index, f0: Fill, ghost cells: set<Index>,
                        ghost k: nat)
    returns (f: Fill)
    requires grid.Valid() && Labels(grid.contents, cells, f0.owner)
    requires Filling(offsets, f0, k) && top in f0.component
    modifies grid`contents, grid.cells
    ensures grid.Valid() && Labels(grid.contents, cells, f.owner)
    ensures Visited(offsets, cells, top, |offsets|, f0, f, k)
  {
    f := f0;
    for j := 0 to |offsets|
      invariant grid.Valid() && Labels(grid.contents, cells, f.owner)
      invariant Visited(offsets, cells, top, j, f0, f, k)
    {
      f := VisitNeighbor(grid, offsets, top, j, f0, f, cells, k);
    }
  }

  lemma SettledKept(offsets: seq<Index>, cells: set<Index>, before: map<Index, nat>, after: map<Index, nat>, a: Index)
    requires Settled(offsets, cells, before, a) && Keeps(before, after)
    ensures Settled(offsets, cells, after, a)
  {
  }

  /** after extends before by cells owned by k only. */
  ghost predicate Adds(before: map<Index, nat>, after: map<Index, nat>, k: nat)
  {
    Keeps(before, after) && forall c :: c in after && c !in before ==> after[c] == k
  }

  ghost predicate Flooding(offsets: seq<Index>, cells: set<Index>, owner0: map<Index, nat>, start: Index, f: Fill,
                           k: nat)
  {
    && Filling(offsets, f, k) && Adds(owner0, f.owner, k) && SettledBut(offsets, cells, f.owner, f.stack)
    && start in f.component
  }

  lemma FloodVisited(offsets: seq<Index>, cells: set<Index>, owner0: map<Index, nat>, start: Index,
                     f: Fill, top: Index, f0: Fill, f1: Fill, k: nat)
    requires Flooding(offsets, cells, owner0, start, f, k)
    requires f.stack == f0.stack + [top] && f0.owner == f.owner
    requires Visited(offsets, cells, top, |offsets|, f0, f1, k)
    requires f0.component == f.component
    ensures Flooding(offsets, cells, owner0, start, f1, k)
  {
    VisitSettles(offsets, cells, top, f0, f1, k);
    forall a | a in f1.owner && a !in f1.stack
      ensures Settled(offsets, cells, f1.owner, a)
    {
      if a != top {
        assert a in f.owner && a !in f.stack;
        SettledKept(offsets, cells, f.owner, f1.owner, a);
      }
    }
  }

  lemma FloodStarts(offsets: seq<Index>, cells: set<Index>, owner0: map<Index, nat>, start: Index, k: nat)
    requires SettledBut(offsets, cells, owner0, []) && start !in owner0
    requires forall c :: c in owner0 ==> owner0[c] < k
    ensures Flooding(offsets, cells, owner0, start, Fill([start], [start], owner0[start := k]), k)
  {
    forall a | a in owner0
      ensures Settled(offsets, cells, owner0[start := k], a)
    {
      SettledKept(offsets, cells, owner0, owner0[start := k], a);
    }
  }

  /** Fewer cells without an owner, or fewer on the stack. */
  ghost predicate Closer(cells: set<Index>, before: Fill, after: Fill)
  {
    || cells - after.owner.Keys < cells - before.owner.Keys
    || (after.owner == before.owner && |after.stack| < |before.stack|)
  }

  lemma OwnersGrow(cells: set<Index>, before: map<Index, nat>, after: map<Index, nat>)
    requires Keeps(before, after) && after.Keys <= cells
    ensures before == after || cells - after.Keys < cells - before.Keys
  {
    if c :| c in after && c !in before {
      assert c in cells - before.Keys && c !in cells - after.Keys;
    } else {
      assert after.Keys == before.Keys;
    }
  }

  function Popped(f: Fill): Fill
    requires f.stack != []
  {
    Fill(f.component, f.stack[..|f.stack| - 1], f.owner)
  }

  lemma PoppedRest(f: Fill)
    requires f.stack != []
    ensures f.stack == Popped(f).stack + [f.stack[|f.stack| - 1]]
  {
  }

  lemma PoppedFilling(offsets: seq<Index>, f: Fill, k: nat)
    requires Filling(offsets, f, k) && f.stack != []
    ensures Filling(offsets, Popped(f), k) && f.stack[|f.stack| - 1] in f.component
  {
  }

  lemma FloodMoves(offsets: seq<Index>, cells: set<Index>, owner0: map<Index, nat>, start: Index, f: Fill, f1: Fill,
                   k: nat)
    requires Flooding(offsets, cells, owner0, start, f, k) && f.stack != [] && f1.owner.Keys <= cells
    requires Visited(offsets, cells, f.stack[|f.stack| - 1], |offsets|, Popped(f), f1, k)
    ensures Flooding(offsets, cells, owner0, start, f1, k) && Closer(cells, f, f1)
  {
    PoppedRest(f);
    FloodVisited(offsets, cells, owner0, start, f, f.stack[|f.stack| - 1], Popped(f), f1, k);
    OwnersGrow(cells, f.owner, f1.owner);
  }

  /** Takes a cell from the stack and visits its neighbours. */
  method FloodOne(grid: LabelGrid, offsets: seq<Index>, f: Fill, ghost start: Index, ghost cells: set<Index>,
                  ghost owner0: map<Index, nat>, ghost k: nat)
    returns (f1: Fill)
    requires grid.Valid() && Labels(grid.contents, cells, f.owner)
    requires Flooding(offsets, cells, owner0, start, f, k) && f.stack != []
    modifies grid`contents, grid.cells
    ensures grid.Valid() && Labels(grid.contents, cells, f1.owner)
    ensures Flooding(offsets, cells, owner0, start, f1, k) && Closer(cells, f, f1)
  {
    PoppedFilling(offsets, f, k);
    f1 := VisitNeighbors(grid, offsets, f.stack[|f.stack| - 1], Popped(f), cells, k);
    FloodMoves(offsets, cells, owner0, start, f, f1, k);
  }

  /** Fills the component of an unlabelled foreground cell. */
  method FloodFill(grid: LabelGrid, offsets: seq<Index>, start: Index, ghost cells: set<Index>,
                   ghost owner0: map<Index, nat>, ghost k: nat)
    returns (component: seq<Index>, ghost owner: map<Index, nat>)
    requires grid.Valid() && Labels(grid.contents, cells, owner0)
    requires start in cells && start !in owner0 && SettledBut(offsets, cells, owner0, [])
    requires forall c :: c in owner0 ==> owner0[c] < k
    modifies grid`contents, grid.cells
    ensures grid.Valid() && Labels(grid.contents, cells, owner)
    ensures Adds(owner0, owner, k) && SettledBut(offsets, cells, owner, [])
    ensures start in component && Owns(component, owner, k) && Distinct(component) && Grown(offsets, component)
  {
    grid.SetCell(start, Labelled);
    var f := Fill([start], [start], owner0[start := k]);
    FloodStarts(offsets, cells, owner0, start, k);
    while f.stack != []
      invariant grid.Valid() && Labels(grid.contents, cells, f.owner)
      invariant Flooding(offsets, cells, owner0, start, f, k)
      decreases cells - f.owner.Keys, |f.stack|
    {
      f := FloodOne(grid, offsets, f, start, cells, owner0, k);
    }
    component, owner := f.component, f.owner;
  }

  lemma NumberedGrows(offsets: seq<Index>, components: seq<seq<Index>>, owner0: map<Index, nat>,
                      component: seq<Index>, owner: map<Index, nat>)
    requires Numbered(offsets, components, owner0) && Adds(owner0, owner, |components|)
    requires component != [] && Owns(component, owner, |components|)
    requires Distinct(component) && Grown(offsets, component)
    ensures Numbered(offsets, components + [component], owner)
  {
    var more := components + [component];
    forall k | 0 <= k < |more|
      ensures more[k] != [] && Owns(more[k], owner, k) && Distinct(more[k]) && Grown(offsets, more[k])
    {
      if k < |components| {
        assert more[k] == components[k] && Owns(components[k], owner0, k);
      }
    }
  }

  /** The cells a list names. */
  ghost function CellSet(list: seq<Index>): set<Index>
  {
    set c | c in list
  }

  /**
   Splits the foreground into components: each grows from its first cell over links, no cell is in
   two of them, none is missed, and a link never leads to a later component.
   */
  method ConnectedComponents(foreground: seq<Index>, size: seq<nat>, offsets: seq<Index>)
    returns (components: seq<seq<Index>>, ghost owner: map<Index, nat>)
    requires ValidSize(size) && forall c :: c in foreground ==> Inside(c, size)
    ensures Numbered(offsets, components, owner)
    ensures owner.Keys == CellSet(foreground)
    ensures SettledBut(offsets, CellSet(foreground), owner, [])
  {
    if foreground == [] {
      return [], map[];
    }
    var grid := LabelForeground(foreground, size);
    components, owner := CollectComponents(grid, foreground, offsets);
  }

  method CollectComponents(grid: LabelGrid, foreground: seq<Index>, offsets: seq<Index>)
    returns (components: seq<seq<Index>>, ghost owner: map<Index, nat>)
    requires grid.Valid() && Labels(grid.contents, CellSet(foreground), map[])
    modifies grid`contents, grid.cells
    ensures Numbered(offsets, components, owner)
    ensures owner.Keys == CellSet(foreground)
    ensures SettledBut(offsets, CellSet(foreground), owner, [])
  {
    components, owner := [], map[];
    ghost var cells := CellSet(foreground);
    for i := 0 to |foreground|
      invariant grid.Valid() && Labels(grid.contents, cells, owner)
      invariant Numbered(offsets, components, owner) && SettledBut(offsets, cells, owner, [])
      invariant CellSet(foreground[..i]) <= owner.Keys
    {
      var tag := grid.Cell(foreground[i]);
      assert CellSet(foreground[..i + 1]) == CellSet(foreground[..i]) + {foreground[i]};
      if tag == Foreground {
        var component;
        ghost var owner0 := owner;
        component, owner := FloodFill(grid, offsets, foreground[i], cells, owner0, |components|);
        NumberedGrows(offsets, components, owner0, component, owner);
        components := components + [component];
      }
    }
    assert foreground[..|foreground|] == foreground;
  }

  /** A label grid whose foreground is the given list; duplicates do no harm. */
  method LabelForeground(foreground: seq<Index>, size: seq<nat>) returns (grid: LabelGrid)
    requires ValidSize(size) && forall c :: c in foreground ==> Inside(c, size)
    ensures grid.Valid() && fresh(grid) && fresh(grid.cells) && grid.size == size
    ensures Labels(grid.contents, CellSet(foreground), map[])
  {
    var n := LinearSize(size);
    var buffer := new Label[n](_ => Background);
    grid := new Grid<Label>(size, buffer);
    UniformShows(size, buffer[..], grid.contents, Background);
    for i := 0 to |foreground|
      invariant grid.Valid() && grid.cells == buffer && grid.size == size
      invariant Labels(grid.contents, CellSet(foreground[..i]), map[])
    {
      grid.SetCell(foreground[i], Foreground);
      assert CellSet(foreground[..i + 1]) == CellSet(foreground[..i]) + {foreground[i]};
    }
    assert foreground[..|foreground|] == foreground;
  }

  function Negated(o: Index): (r: Index)
    ensures |r| == |o|
  {
    seq(|o|, k requires 0 <= k < |o| => -o[k])
  }

  ghost predicate Symmetric(offsets: seq<Index>)
  {
    forall o :: o in offsets ==> Negated(o) in offsets
  }

  lemma LinkedBack(offsets: seq<Index>, a: Index, b: Index)
    requires Symmetric(offsets) && Linked(offsets, a, b)
    ensures Linked(offsets, b, a)
  {
    var o :| o in offsets && b == Plus(a, o);
    assert a == Plus(b, Negated(o));
  }

  /** With symmetric offsets a component is closed under links between foreground cells. */
  lemma LinkedSameOwner(offsets: seq<Index>, cells: set<Index>, owner: map<Index, nat>, a: Index, b: Index)
    requires Symmetric(offsets) && owner.Keys == cells && SettledBut(offsets, cells, owner, [])
    requires a in cells && b in cells && Linked(offsets, a, b)
    ensures owner[a] == owner[b]
  {
    LinkedBack(offsets, a, b);
    assert Settled(offsets, cells, owner, a) && Settled(offsets, cells, owner, b);
  }

  /** A walk over links that stays in the foreground. */
  ghost predicate Chain(offsets: seq<Index>, cells: set<Index>, path: seq<Index>)
  {
    && |path| > 0
    && (forall i :: 0 <= i < |path| ==> path[i] in cells)
    && (forall i, j :: 0 <= i < |path| && j == i + 1 < |path| ==> Linked(offsets, path[i], path[j]))
  }

  ghost predicate Connected(offsets: seq<Index>, cells: set<Index>, a: Index, b: Index)
  {
    exists path :: Chain(offsets, cells, path) && path[0] == a && path[|path| - 1] == b
  }

  lemma {:induction false} ChainSameOwner(offsets: seq<Index>, cells: set<Index>, owner: map<Index, nat>,
                                          path: seq<Index>, i: nat)
    requires Symmetric(offsets) && owner.Keys == cells && SettledBut(offsets, cells, owner, [])
    requires Chain(offsets, cells, path) && i < |path|
    ensures owner[path[i]] == owner[path[0]]
  {
    if i > 0 {
      ChainSameOwner(offsets, cells, owner, path, i - 1);
      LinkedSameOwner(offsets, cells, owner, path[i - 1], path[i]);
    }
  }

  lemma {:induction false} GrownChain(offsets: seq<Index>, cells: set<Index>, component: seq<Index>, i: nat)
    returns (path: seq<Index>)
    requires Grown(offsets, component) && i < |component| && forall c :: c in component ==> c in cells
    ensures Chain(offsets, cells, path) && path[0] == component[0] && path[|path| - 1] == component[i]
  {
    if i == 0 {
      path := [component[0]];
    } else {
      var j :| 0 <= j < i && Linked(offsets, component[j], component[i]);
      path := GrownChain(offsets, cells, component, j);
      path := Longer(offsets, cells, path, component[i]);
    }
  }

  lemma Longer(offsets: seq<Index>, cells: set<Index>, path: seq<Index>, next: Index) returns (longer: seq<Index>)
    requires Chain(offsets, cells, path) && Linked(offsets, path[|path| - 1], next) && next in cells
    ensures Chain(offsets, cells, longer) && longer[0] == path[0] && longer[|longer| - 1] == next
  {
    longer := path + [next];
  }

  lemma Reversed(offsets: seq<Index>, cells: set<Index>, path: seq<Index>) returns (back: seq<Index>)
    requires Symmetric(offsets) && Chain(offsets, cells, path)
    ensures Chain(offsets, cells, back) && back[0] == path[|path| - 1] && back[|back| - 1] == path[0]
  {
    back := seq(|path|, i requires 0 <= i < |path| => path[|path| - 1 - i]);
    forall i, j | 0 <= i < |back| && j == i + 1 < |back|
      ensures Linked(offsets, back[i], back[j])
    {
      LinkedBack(offsets, path[|path| - 1 - j], path[|path| - 1 - i]);
    }
  }

  /** The components are exactly the classes of cells connected by walks in the foreground. */
  lemma SameComponentIffConnected(offsets: seq<Index>, components: seq<seq<Index>>, owner: map<Index, nat>, a: Index,
                                  b: Index)
    requires Symmetric(offsets) && Numbered(offsets, components, owner)
    requires SettledBut(offsets, owner.Keys, owner, []) && a in owner && b in owner
    ensures owner[a] == owner[b] <==> Connected(offsets, owner.Keys, a, b)
  {
    var cells := owner.Keys;
    if Connected(offsets, cells, a, b) {
      var path :| Chain(offsets, cells, path) && path[0] == a && path[|path| - 1] == b;
      ChainSameOwner(offsets, cells, owner, path, |path| - 1);
    }
    if owner[a] == owner[b] {
      var component := components[owner[a]];
      assert Owns(component, owner, owner[a]);
      var i :| 0 <= i < |component| && component[i] == a;
      var j :| 0 <= j < |component| && component[j] == b;
      var fromFirst := GrownChain(offsets, cells, component, i);
      var there := Reversed(offsets, cells, fromFirst);
      var on := GrownChain(offsets, cells, component, j);
      Joined(offsets, cells, there, on);
    }
  }

  lemma Joined(offsets: seq<Index>, cells: set<Index>, p: seq<Index>, q: seq<Index>)
    requires Chain(offsets, cells, p) && Chain(offsets, cells, q) && p[|p| - 1] == q[0]
    ensures Connected(offsets, cells, p[0], q[|q| - 1])
  {
    var path := p + q[1..];
    forall i, j | 0 <= i < |path| && j == i + 1 < |path|
      ensures Linked(offsets, path[i], path[j])
    {
      if j < |p| {
        assert path[i] == p[i] && path[j] == p[j];
      } else {
        assert path[i] == q[i - |p| + 1] && path[j] == q[j - |p| + 1];
      }
    }
  }
}
