/** The cell grid of the fast marching method: an N-dimensional view of a linear buffer. */
module Grids {
  import opened Arithmetic
  import opened Wrappers

  /** An N-dimensional integer coordinate; its length is the dimension. */
  type Index = seq<int>

  predicate ValidSize(size: seq<nat>)
  {
    |size| > 0 && forall k :: 0 <= k < |size| ==> size[k] > 0
  }

  predicate Inside(index: Index, size: seq<nat>)
  {
    |index| == |size| && forall k :: 0 <= k < |size| ==> 0 <= index[k] < size[k]
  }

  ghost predicate Distinct(cells: seq<Index>)
  {
    forall i, j :: 0 <= i < j < |cells| ==> cells[i] != cells[j]
  }

  /** Product of the first n extents. */
  function Product(size: seq<nat>, n: nat): nat
    requires n <= |size|
  {
    if n == 0 then 1 else Product(size, n - 1) * size[n - 1]
  }

  function LinearSize(size: seq<nat>): nat
  {
    Product(size, |size|)
  }

  lemma {:induction false} ProductPositive(size: seq<nat>, n: nat)
    requires ValidSize(size) && n <= |size|
    ensures Product(size, n) > 0
  {
    if n > 0 {
      ProductPositive(size, n - 1);
      MulPositive(Product(size, n - 1), size[n - 1]);
    }
  }

  lemma MulPositive(a: nat, b: nat)
    requires a > 0 && b > 0
    ensures a * b > 0
  {
  }

  /** Weighted sum of the first n coordinates, coordinate 0 varying fastest. */
  function LinearIndex(index: Index, size: seq<nat>, n: nat): int
    requires |index| == |size| && n <= |size|
  {
    if n == 0 then 0 else LinearIndex(index, size, n - 1) + index[n - 1] * Product(size, n - 1)
  }

  method GridStrides(size: seq<nat>) returns (strides: seq<nat>)
    requires |size| > 0
    ensures |strides| == |size| - 1
    ensures forall k :: 0 <= k < |strides| ==> strides[k] == Product(size, k + 1)
  {
    strides := [];
    var stride := 1;
    for i := 1 to |size|
      invariant |strides| == i - 1
      invariant stride == Product(size, i - 1)
      invariant forall k :: 0 <= k < |strides| ==> strides[k] == Product(size, k + 1)
    {
      stride := stride * size[i - 1];
      strides := strides + [stride];
    }
  }

  method GridLinearIndex(index: Index, strides: seq<nat>, ghost size: seq<nat>) returns (k: int)
    requires |index| == |size| == |strides| + 1
    requires forall i :: 0 <= i < |strides| ==> strides[i] == Product(size, i + 1)
    ensures k == LinearIndex(index, size, |size|)
  {
    k := index[0];
    assert LinearIndex(index, size, 1) == LinearIndex(index, size, 0) + index[0] * Product(size, 0);
    for i := 1 to |index|
      invariant k == LinearIndex(index, size, i)
    {
      k := k + index[i] * strides[i - 1];
    }
  }

  lemma {:induction false} LinearIndexInRange(index: Index, size: seq<nat>, n: nat)
    requires ValidSize(size) && Inside(index, size) && n <= |size|
    ensures 0 <= LinearIndex(index, size, n) < Product(size, n)
  {
    if n > 0 {
      LinearIndexInRange(index, size, n - 1);
      DigitInRange(LinearIndex(index, size, n - 1), index[n - 1], Product(size, n - 1), size[n - 1]);
    }
  }

  lemma DigitInRange(low: int, digit: int, place: int, extent: int)
    requires 0 <= low < place && 0 <= digit < extent
    ensures 0 <= low + digit * place < place * extent
  {
    assert digit * place <= (extent - 1) * place;
  }

  /** Distinct in-grid coordinates never share a buffer slot. */
  lemma {:induction false} LinearIndexInjective(a: Index, b: Index, size: seq<nat>, n: nat)
    requires ValidSize(size) && Inside(a, size) && Inside(b, size) && n <= |size|
    requires LinearIndex(a, size, n) == LinearIndex(b, size, n)
    ensures a[..n] == b[..n]
  {
    if n > 0 {
      LinearIndexInRange(a, size, n - 1);
      LinearIndexInRange(b, size, n - 1);
      DigitsUnique(LinearIndex(a, size, n - 1), a[n - 1],
                   LinearIndex(b, size, n - 1), b[n - 1], Product(size, n - 1));
      LinearIndexInjective(a, b, size, n - 1);
      assert a[..n] == a[..n - 1] + [a[n - 1]];
      assert b[..n] == b[..n - 1] + [b[n - 1]];
    }
  }

  lemma DigitsUnique(low1: int, digit1: int, low2: int, digit2: int, place: int)
    requires 0 <= low1 < place && 0 <= low2 < place
    requires low1 + digit1 * place == low2 + digit2 * place
    ensures low1 == low2 && digit1 == digit2
  {
    var d := digit1 - digit2;
    assert (digit2 + d) * place == digit2 * place + d * place;
    SmallMultiple(d, place);
  }

  /** A step along an axis moves by the cells of the axes before it: the first axis runs fastest, from the origin on. */
  lemma {:induction false} FirstAxisFastest(index: Index, size: seq<nat>, k: nat, n: nat)
    requires |index| == |size| && k < n <= |size|
    ensures LinearIndex(index[k := index[k] + 1], size, n) == LinearIndex(index, size, n) + Product(size, k)
    ensures (forall i :: 0 <= i < |index| ==> index[i] == 0) ==> LinearIndex(index, size, n) == 0
  {
    var next := index[k := index[k] + 1];
    if k < n - 1 {
      FirstAxisFastest(index, size, k, n - 1);
    } else {
      SameBefore(index, next, size, k);
      OneMoreTimes(index[k], Product(size, k));
      if forall i :: 0 <= i < |index| ==> index[i] == 0 {
        OriginFirst(index, size, k);
      }
    }
  }

  lemma OneMoreTimes(a: int, b: int)
    ensures (a + 1) * b == a * b + b
  {
  }

  lemma {:induction false} SameBefore(a: Index, b: Index, size: seq<nat>, n: nat)
    requires |a| == |b| == |size| && n <= |size| && forall i :: 0 <= i < n ==> a[i] == b[i]
    ensures LinearIndex(a, size, n) == LinearIndex(b, size, n)
  {
    if n > 0 {
      SameBefore(a, b, size, n - 1);
    }
  }

  lemma {:induction false} OriginFirst(index: Index, size: seq<nat>, n: nat)
    requires |index| == |size| && n <= |size| && forall i :: 0 <= i < |index| ==> index[i] == 0
    ensures LinearIndex(index, size, n) == 0
  {
    if n > 0 {
      OriginFirst(index, size, n - 1);
    }
  }

  /** The finite set of in-grid coordinates. */
  function Cells(size: seq<nat>): (cells: set<Index>)
    ensures forall c: Index :: c in cells <==> Inside(c, size)
    decreases |size|
  {
    if size == [] then {[]}
    else
      var rest := Cells(size[1..]);
      var cells := set i: int, r: Index | 0 <= i < size[0] && r in rest :: [i] + r;
      CellsExact(size, rest, cells);
      cells
  }

  lemma CellsExact(size: seq<nat>, rest: set<Index>, cells: set<Index>)
    requires size != []
    requires forall c: Index :: c in rest <==> Inside(c, size[1..])
    requires cells == set i: int, r: Index | 0 <= i < size[0] && r in rest :: [i] + r
    ensures forall c: Index :: c in cells <==> Inside(c, size)
  {
    forall c: Index | Inside(c, size)
      ensures c in cells
    {
      assert c == [c[0]] + c[1..];
      assert Inside(c[1..], size[1..]);
    }
  }

  function Slot(index: Index, size: seq<nat>): (k: nat)
    requires ValidSize(size) && Inside(index, size)
    ensures k < LinearSize(size)
  {
    LinearIndexInRange(index, size, |size|);
    LinearIndex(index, size, |size|)
  }

  /** The map holds, for every in-grid coordinate and no other, what the buffer holds for it. */
  ghost predicate Shows<T>(size: seq<nat>, buffer: seq<T>, contents: map<Index, T>)
    requires ValidSize(size) && |buffer| == LinearSize(size)
  {
    && (forall c :: c in contents <==> Inside(c, size))
    && (forall c {:trigger Slot(c, size)} :: Inside(c, size) ==> contents[c] == buffer[Slot(c, size)])
  }

  lemma SlotsAgree(a: Index, b: Index, size: seq<nat>)
    requires ValidSize(size) && Inside(a, size) && Inside(b, size)
    requires Slot(a, size) == Slot(b, size)
    ensures a == b
  {
    LinearIndexInjective(a, b, size, |size|);
    assert a == a[..|size|] && b == b[..|size|];
  }

  /** Writing one buffer slot changes what the grid shows at exactly one coordinate. */
  lemma ShowsUpdate<T>(size: seq<nat>, buffer: seq<T>, contents: map<Index, T>, index: Index, v: T)
    requires ValidSize(size) && Inside(index, size) && |buffer| == LinearSize(size)
    requires Shows(size, buffer, contents)
    ensures Shows(size, buffer[Slot(index, size) := v], contents[index := v])
  {
    forall c | Inside(c, size) && Slot(c, size) == Slot(index, size)
      ensures c == index
    {
      SlotsAgree(c, index, size);
    }
  }

  lemma UniformShows<T>(size: seq<nat>, buffer: seq<T>, contents: map<Index, T>, v: T)
    requires ValidSize(size) && |buffer| == LinearSize(size) && Shows(size, buffer, contents)
    requires forall k :: 0 <= k < |buffer| ==> buffer[k] == v
    ensures forall c :: c in contents ==> contents[c] == v
  {
    forall c | c in contents
      ensures contents[c] == v
    {
      assert contents[c] == buffer[Slot(c, size)];
    }
  }

  /** N-dimensional view of a linear buffer that the grid does not own. */
  class Grid<T> {
    const size: seq<nat>
    const strides: seq<nat>
    const cells: array<T>
    ghost var contents: map<Index, T>  // what the grid shows: one value per in-grid coordinate

    ghost predicate Valid()
      reads this, cells
    {
      && ValidSize(size)
      && |strides| == |size| - 1
      && (forall k :: 0 <= k < |strides| ==> strides[k] == Product(size, k + 1))
      && cells.Length == LinearSize(size)
      && Shows(size, cells[..], contents)
    }

    constructor (size: seq<nat>, cells: array<T>)
      requires ValidSize(size) && cells.Length == LinearSize(size)
      ensures Valid() && this.size == size && this.cells == cells
      ensures Shows(size, cells[..], contents)
    {
      var s := GridStrides(size);
      this.size := size;
      this.strides := s;
      this.cells := cells;
      this.contents := map c | c in Cells(size) :: cells[Slot(c, size)];
    }

    method Cell(index: Index) returns (v: T)
      requires Valid() && Inside(index, size)
      ensures index in contents && v == contents[index]
    {
      var k := LocateSlot(index);
      v := cells[k];
    }

    method SetCell(index: Index, v: T)
      requires Valid() && Inside(index, size)
      modifies this`contents, cells
      ensures Valid() && contents == old(contents)[index := v]
    {
      var k := LocateSlot(index);
      cells[k] := v;
      contents := contents[index := v];
      assert cells[..] == old(cells[..])[k := v];
      ShowsUpdate(size, old(cells[..]), old(contents), index, v);
    }

    /** Replaces every cell by its image under f. */
    method Transform(f: T -> T)
      requires Valid()
      modifies this`contents, cells
      ensures Valid() && contents == map c | c in old(contents) :: f(old(contents)[c])
    {
      for k := 0 to cells.Length
        invariant contents == old(contents)
        invariant forall j :: 0 <= j < cells.Length ==> cells[j] == if j < k then f(old(cells[j])) else old(cells[j])
      {
        cells[k] := f(cells[k]);
      }
      contents := map c | c in contents :: f(contents[c]);
    }

    /** The whole grid as a value, as a solver that only reads it is given it. */
    method Snapshot() returns (m: map<Index, T>)
      requires Valid()
      ensures m == contents
    {
      m := map c | c in Cells(size) :: cells[Slot(c, size)];
    }

    method LocateSlot(index: Index) returns (k: nat)
      requires Valid() && Inside(index, size)
      ensures k == Slot(index, size)
    {
      LinearIndexInRange(index, size, |size|);
      k := GridLinearIndex(index, strides, size);
    }
  }
}
