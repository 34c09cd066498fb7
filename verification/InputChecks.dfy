/** What the input checks let through, and which defect of an input each of their failures stands for. */
module InputChecks {
  import opened Wrappers
  import opened Grids
  import opened Components
  import opened Boxes
  import opened ArrivalTimes

  /** A list of different cells has as many cells as it is long. */
  lemma {:induction false} DistinctCount(list: seq<Index>)
    requires Distinct(list)
    ensures |CellSet(list)| == |list|
  {
    if list == [] {
      assert CellSet(list) == {};
    } else {
      var before, last := list[..|list| - 1], list[|list| - 1];
      assert forall i, j :: 0 <= i < j < |before| ==> before[i] != before[j];
      DistinctCount(before);
      assert list == before + [last];
      assert CellSet(list) == CellSet(before) + {last} && last !in CellSet(before);
    }
  }

  /** Different cells of a grid cover it exactly when there are as many as the grid has. */
  lemma CoversIffFull(size: seq<nat>, boundary: seq<Index>)
    requires Distinct(boundary) && forall b :: b in boundary ==> Inside(b, size)
    ensures |boundary| == LinearSize(size) <==> forall c :: Inside(c, size) ==> c in boundary
  {
    CellsCount(size);
    DistinctCount(boundary);
    var cells, all := CellSet(boundary), Cells(size);
    assert cells <= all;
    if cells != all {
      FewerCells(cells, all);
    }
  }

  /**
   An input of different cells inside a grid, with as many times, passes exactly when some cell of the grid is
   boundary and some is not.
   */
  lemma PassesIff(size: seq<nat>, boundary: seq<Index>, times: seq<real>)
    requires ValidSize(size) && |boundary| == |times|
    requires Distinct(boundary) && forall b :: b in boundary ==> Inside(b, size)
    ensures InputFailure(size, boundary, times) == None <==>
              (exists b :: b in boundary) && exists c :: Inside(c, size) && c !in boundary
  {
    CoversIffFull(size, boundary);
    assert boundary != [] ==> boundary[0] in boundary;
  }

  /** The defect that a failure reports. */
  ghost predicate Defect(f: Failure, size: seq<nat>, boundary: seq<Index>, times: seq<real>)
  {
    match f
    case ZeroElementInSize => exists k :: 0 <= k < |size| && size[k] == 0
    case EmptyBoundary => forall c :: c !in boundary
    case FullGridBoundary => |boundary| == |Cells(size)|
    case SizeMismatch => |boundary| != |times|
    case BoundaryOutsideGrid => exists i :: 0 <= i < |boundary| && !Inside(boundary[i], size)
    case _ => false
  }

  /** The defects in the order in which they are looked for. */
  const CHECKS: seq<Failure> := [ZeroElementInSize, EmptyBoundary, FullGridBoundary, SizeMismatch, BoundaryOutsideGrid]

  /** An input is reported for the first of its defects, and passes exactly when it has none. */
  lemma FirstDefect(size: seq<nat>, boundary: seq<Index>, times: seq<real>, i: nat)
    requires i < |CHECKS|
    ensures InputFailure(size, boundary, times) == Some(CHECKS[i]) <==>
              && Defect(CHECKS[i], size, boundary, times)
              && forall j :: 0 <= j < i ==> !Defect(CHECKS[j], size, boundary, times)
    ensures InputFailure(size, boundary, times) == None <==>
              forall j :: 0 <= j < |CHECKS| ==> !Defect(CHECKS[j], size, boundary, times)
  {
    CellsCount(size);
    var n, o, l, m, b := Defect(CHECKS[0], size, boundary, times), Defect(CHECKS[1], size, boundary, times),
                         Defect(CHECKS[2], size, boundary, times), Defect(CHECKS[3], size, boundary, times),
                         Defect(CHECKS[4], size, boundary, times);
    assert o <==> boundary == [] by {
      assert boundary != [] ==> boundary[0] in boundary;
    }
    assert b <==> exists c :: c in boundary && !Inside(c, size) by {
      if c :| c in boundary && !Inside(c, size) {
        var k :| 0 <= k < |boundary| && boundary[k] == c;
      }
    }
  }
}
