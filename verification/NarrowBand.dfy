/** The priority queue of the fast marching method: tentative arrival times, smallest first. */
module NarrowBands {
  import opened Wrappers
  import opened Grids

  /** A tentative arrival time for a cell. A cell may have several entries at once. */
  datatype Entry = Entry(time: real, cell: Index)

  /** Lexicographic order on coordinates, as std::array compares. */
  predicate IndexLeq(a: Index, b: Index)
  {
    if a == [] then true
    else if b == [] then false
    else a[0] < b[0] || (a[0] == b[0] && IndexLeq(a[1..], b[1..]))
  }

  /** Order on entries, as std::pair compares: time first, then the coordinate. */
  predicate EntryLeq(a: Entry, b: Entry)
  {
    a.time < b.time || (a.time == b.time && IndexLeq(a.cell, b.cell))
  }

  /** The first axis on which two cells differ decides. */
  lemma {:induction false} IndexLeqIff(a: Index, b: Index)
    requires |a| == |b|
    ensures IndexLeq(a, b) <==> a == b || exists k :: 0 <= k < |a| && a[..k] == b[..k] && a[k] < b[k]
  {
    if a != [] {
      assert a == [a[0]] + a[1..] && b == [b[0]] + b[1..];
      IndexLeqIff(a[1..], b[1..]);
      if k :| 0 <= k < |a[1..]| && a[1..][..k] == b[1..][..k] && a[1..][k] < b[1..][k] {
        assert a[..k + 1] == [a[0]] + a[1..][..k] && b[..k + 1] == [b[0]] + b[1..][..k];
        assert a[0] == b[0] ==> a[..k + 1] == b[..k + 1] && a[k + 1] < b[k + 1];
      }
      if a[0] < b[0] {
        assert a[..0] == b[..0];
      }
      if k :| 0 < k < |a| && a[..k] == b[..k] && a[k] < b[k] {
        assert a[..k][0] == b[..k][0];
        assert a[1..][..k - 1] == a[..k][1..] && b[1..][..k - 1] == b[..k][1..];
        assert a[1..][..k - 1] == b[1..][..k - 1] && a[1..][k - 1] < b[1..][k - 1];
      }
    }
  }

  lemma {:induction false} IndexLeqTotal(a: Index, b: Index)
    ensures IndexLeq(a, b) || IndexLeq(b, a)
    ensures IndexLeq(a, b) && IndexLeq(b, a) ==> a == b
  {
    if a != [] && b != [] {
      IndexLeqTotal(a[1..], b[1..]);
      assert a == [a[0]] + a[1..] && b == [b[0]] + b[1..];
    }
  }

  lemma {:induction false} IndexLeqTransitive(a: Index, b: Index, c: Index)
    requires IndexLeq(a, b) && IndexLeq(b, c)
    ensures IndexLeq(a, c)
  {
    if a != [] && b != [] && c != [] && a[0] == b[0] == c[0] {
      IndexLeqTransitive(a[1..], b[1..], c[1..]);
    }
  }

  ghost predicate IsLeast(e: Entry, heap: multiset<Entry>)
  {
    e in heap && forall f :: f in heap ==> EntryLeq(e, f)
  }

  lemma LeastUnique(e: Entry, f: Entry, heap: multiset<Entry>)
    requires IsLeast(e, heap) && IsLeast(f, heap)
    ensures e == f
  {
    IndexLeqTotal(e.cell, f.cell);
  }

  lemma {:induction false} LeastExists(heap: multiset<Entry>)
    requires heap != multiset{}
    ensures exists e :: IsLeast(e, heap)
    decreases |heap|
  {
    var e :| e in heap;
    var rest := heap - multiset{e};
    assert heap == rest + multiset{e};
    IndexLeqTotal(e.cell, e.cell);
    if rest == multiset{} {
      assert IsLeast(e, heap);
    } else {
      LeastExists(rest);
      var f :| IsLeast(f, rest);
      IndexLeqTotal(e.cell, f.cell);
      if EntryLeq(f, e) {
        assert IsLeast(f, heap);
      } else {
        forall g | g in rest
          ensures EntryLeq(e, g)
        {
          if e.time == f.time == g.time {
            IndexLeqTransitive(e.cell, f.cell, g.cell);
          }
        }
        assert IsLeast(e, heap);
      }
    }
  }

  class NarrowBandStore {
    var heap: multiset<Entry>

    constructor ()
      ensures heap == multiset{}
    {
      heap := multiset{};
    }

    predicate Empty()
      reads this
    {
      heap == multiset{}
    }

    method Pop() returns (e: Entry)
      requires !Empty()
      modifies this`heap
      ensures IsLeast(e, old(heap))
      ensures heap == old(heap) - multiset{e}
    {
      LeastExists(heap);
      e :| e in heap && forall f :: f in heap ==> EntryLeq(e, f);
      heap := heap - multiset{e};
    }

    method Push(e: Entry)
      modifies this`heap
      ensures heap == old(heap) + multiset{e}
    {
      heap := heap + multiset{e};
    }
  }
}
