/** The neighbour offsets of an N-dimensional cell, enumerated by an odometer in base three. */
module Neighborhoods {
  import opened Wrappers
  import opened Grids

  function Pow3(n: nat): (p: nat)
    ensures p > 0
  {
    if n == 0 then 1 else 3 * Pow3(n - 1)
  }

  ghost predicate Digits(d: Index)
  {
    forall k :: 0 <= k < |d| ==> 0 <= d[k] < 3
  }

  /** The number the odometer shows, digit 0 turning fastest. */
  ghost function Value(d: Index): int
  {
    if d == [] then 0 else d[0] + 3 * Value(d[1..])
  }

  ghost function FromValue(v: nat, n: nat): (d: Index)
    ensures |d| == n && Digits(d)
  {
    if n == 0 then [] else [v % 3] + FromValue(v / 3, n - 1)
  }

  lemma {:induction false} ValueRange(d: Index)
    requires Digits(d)
    ensures 0 <= Value(d) < Pow3(|d|)
  {
    if d != [] {
      ValueRange(d[1..]);
    }
  }

  lemma {:induction false} FromValueOfValue(d: Index)
    requires Digits(d)
    ensures Value(d) >= 0 && FromValue(Value(d), |d|) == d
  {
    ValueRange(d);
    if d != [] {
      ValueRange(d[1..]);
      FromValueOfValue(d[1..]);
      assert d == [d[0]] + d[1..];
    }
  }

  lemma {:induction false} ValueOfFromValue(v: nat, n: nat)
    requires v < Pow3(n)
    ensures Value(FromValue(v, n)) == v
  {
    if n > 0 {
      ValueOfFromValue(v / 3, n - 1);
      assert FromValue(v, n)[1..] == FromValue(v / 3, n - 1);
    }
  }

  /** One turn of the odometer. */
  ghost function Next(d: Index): (e: Index)
    ensures |e| == |d|
  {
    if d == [] then [] else if d[0] + 1 < 3 then [d[0] + 1] + d[1..] else [0] + Next(d[1..])
  }

  lemma {:induction false} NextCounts(d: Index)
    requires Digits(d)
    ensures Digits(Next(d))
    ensures Value(d) + 1 < Pow3(|d|) ==> Value(Next(d)) == Value(d) + 1
  {
    if d != [] {
      NextCounts(d[1..]);
      if d[0] + 1 < 3 {
        assert Next(d)[1..] == d[1..];
      } else {
        assert Next(d)[1..] == Next(d[1..]);
        ValueRange(d[1..]);
      }
    }
  }

  function Zeros(n: nat): Index
  {
    seq(n, _ => 0)
  }

  method Advance(index: Index) returns (next: Index)
    requires Digits(index)
    ensures next == Next(index)
  {
    next := index;
    var j := 0;
    while j < |index|
      invariant 0 <= j <= |index| == |next|
      invariant next == Zeros(j) + index[j..]
      invariant Next(index) == Zeros(j) + Next(index[j..])
    {
      NextAt(index, j);
      if next[j] + 1 < 3 {
        next := next[j := next[j] + 1];
        return;
      } else {
        next := next[j := 0];
        j := j + 1;
      }
    }
  }

  /** What the odometer shows when its first j digits have carried. */
  lemma NextAt(index: Index, j: nat)
    requires j < |index|
    ensures var next := Zeros(j) + index[j..];
            && next[j] == index[j]
            && (index[j] + 1 < 3 ==> next[j := index[j] + 1] == Zeros(j) + Next(index[j..]))
            && (index[j] + 1 >= 3 ==> next[j := 0] == Zeros(j + 1) + index[j + 1..])
            && (index[j] + 1 >= 3 ==> Zeros(j) + Next(index[j..]) == Zeros(j + 1) + Next(index[j + 1..]))
  {
    assert index[j..][1..] == index[j + 1..];
    assert Zeros(j) + [0] == Zeros(j + 1);
  }

  function Centered(d: Index): (o: Index)
    ensures |o| == |d|
  {
    seq(|d|, k requires 0 <= k < |d| => d[k] - 1)
  }

  ghost function Uncentered(o: Index): (d: Index)
    ensures |d| == |o|
  {
    seq(|o|, k requires 0 <= k < |o| => o[k] + 1)
  }

  predicate IsZero(o: Index)
  {
    forall k :: 0 <= k < |o| ==> o[k] == 0
  }

  /** An offset to one of the cells that share a vertex with a cell, other than itself. */
  ghost predicate VertexOffset(o: Index, n: nat)
  {
    |o| == n && (forall k :: 0 <= k < n ==> -1 <= o[k] <= 1) && !IsZero(o)
  }

  ghost function Ones(n: nat): Index
  {
    seq(n, _ => 1)
  }

  /** The turn of the odometer at which the offset is zero. */
  ghost function Middle(n: nat): (v: nat)
  {
    if n == 0 then 0 else 1 + 3 * Middle(n - 1)
  }

  lemma {:induction false} MiddleIsOnes(n: nat)
    ensures FromValue(Middle(n), n) == Ones(n) && 2 * Middle(n) + 1 == Pow3(n)
  {
    if n > 0 {
      MiddleIsOnes(n - 1);
      assert Ones(n) == [1] + Ones(n - 1);
    }
  }

  lemma CenteredZero(v: nat, n: nat)
    requires v < Pow3(n)
    ensures IsZero(Centered(FromValue(v, n))) <==> v == Middle(n)
  {
    MiddleIsOnes(n);
    if IsZero(Centered(FromValue(v, n))) {
      forall k | 0 <= k < n
        ensures FromValue(v, n)[k] == 1
      {
        assert Centered(FromValue(v, n))[k] == 0;
      }
      assert FromValue(v, n) == Ones(n);
      ValueOfFromValue(v, n);
      ValueOfFromValue(Middle(n), n);
    }
  }

  /** The turn of the odometer that yields the i-th offset. */
  ghost function Turn(i: nat, n: nat): nat
  {
    if i < Middle(n) then i else i + 1
  }

  method EnumerateOffsets(n: nat) returns (offsets: seq<Index>)
    requires n > 0
    ensures |offsets| == Pow3(n) - 1
    ensures forall i :: 0 <= i < |offsets| ==> offsets[i] == Centered(FromValue(Turn(i, n), n))
  {
    MiddleIsOnes(n);
    offsets := [];
    var index := Zeros(n);
    ghost var v := 0;
    ValueOfZeros(n);
    while |offsets| < Pow3(n) - 1
      invariant v <= Pow3(n) && |index| == n && Digits(index)
      invariant v < Pow3(n) ==> Value(index) == v
      invariant |offsets| == if v <= Middle(n) then v else v - 1
      invariant forall i :: 0 <= i < |offsets| ==> offsets[i] == Centered(FromValue(Turn(i, n), n))
      decreases Pow3(n) - v
    {
      FromValueOfValue(index);
      CenteredZero(v, n);
      var offset := Centered(index);
      if !IsZero(offset) {
        offsets := offsets + [offset];
      }
      NextCounts(index);
      index := Advance(index);
      v := v + 1;
    }
  }

  lemma {:induction false} ValueOfZeros(n: nat)
    ensures Value(Zeros(n)) == 0
  {
    if n > 0 {
      assert Zeros(n)[1..] == Zeros(n - 1);
      ValueOfZeros(n - 1);
    }
  }

  /** Every vertex offset once, and nothing else. */
  method VertexNeighborOffsets(n: nat) returns (offsets: seq<Index>)
    requires n > 0
    ensures |offsets| == Pow3(n) - 1
    ensures forall o: Index :: o in offsets <==> VertexOffset(o, n)
    ensures forall i, j :: 0 <= i < j < |offsets| ==> offsets[i] != offsets[j]
  {
    offsets := EnumerateOffsets(n);
    forall o: Index | VertexOffset(o, n)
      ensures o in offsets
    {
      var i := OffsetFound(o, n);
      assert offsets[i] == o;
    }
    forall i | 0 <= i < |offsets|
      ensures VertexOffset(offsets[i], n)
    {
      OffsetSound(i, n);
    }
    forall i, j | 0 <= i < j < |offsets|
      ensures offsets[i] != offsets[j]
    {
      OffsetsDiffer(i, j, n);
    }
  }

  lemma OffsetFound(o: Index, n: nat) returns (i: nat)
    requires VertexOffset(o, n) && n > 0
    ensures i < Pow3(n) - 1 && Centered(FromValue(Turn(i, n), n)) == o
  {
    var d := Uncentered(o);
    ValueRange(d);
    FromValueOfValue(d);
    MiddleIsOnes(n);
    CenteredZero(Value(d), n);
    assert Centered(d) == o;
    i := if Value(d) < Middle(n) then Value(d) else Value(d) - 1;
  }

  lemma OffsetSound(i: nat, n: nat)
    requires n > 0 && i < Pow3(n) - 1
    ensures VertexOffset(Centered(FromValue(Turn(i, n), n)), n)
  {
    MiddleIsOnes(n);
    CenteredZero(Turn(i, n), n);
  }

  lemma OffsetsDiffer(i: nat, j: nat, n: nat)
    requires n > 0 && i < j < Pow3(n) - 1
    ensures Centered(FromValue(Turn(i, n), n)) != Centered(FromValue(Turn(j, n), n))
  {
    MiddleIsOnes(n);
    var a, b := FromValue(Turn(i, n), n), FromValue(Turn(j, n), n);
    ValueOfFromValue(Turn(i, n), n);
    ValueOfFromValue(Turn(j, n), n);
    if Centered(a) == Centered(b) {
      CenteredInjective(a, b);
    }
  }

  lemma CenteredInjective(a: Index, b: Index)
    requires |a| == |b| && Centered(a) == Centered(b)
    ensures a == b
  {
    forall k | 0 <= k < |a|
      ensures a[k] == b[k]
    {
      assert Centered(a)[k] == Centered(b)[k];
    }
  }

  /** The unit offset along an axis. */
  function Unit(n: nat, axis: nat, step: int): (o: Index)
    ensures |o| == n
  {
    seq(n, k => if k == axis then step else 0)
  }

  /** An offset to one of the cells that share a face with a cell. */
  ghost predicate FaceOffset(o: Index, n: nat)
  {
    exists axis: nat :: axis < n && (o == Unit(n, axis, 1) || o == Unit(n, axis, -1))
  }

  /** +1 and -1 along every axis. */
  method FaceNeighborOffsets(n: nat) returns (offsets: seq<Index>)
    requires n > 0
    ensures |offsets| == 2 * n
    ensures forall o: Index :: o in offsets <==> FaceOffset(o, n)
    ensures forall axis: nat :: axis < n ==>
              offsets[2 * axis] == Unit(n, axis, 1) && offsets[2 * axis + 1] == Unit(n, axis, -1)
  {
    offsets := [];
    for i := 0 to n
      invariant |offsets| == 2 * i
      invariant forall axis: nat :: axis < i ==>
                  offsets[2 * axis] == Unit(n, axis, 1) && offsets[2 * axis + 1] == Unit(n, axis, -1)
    {
      offsets := offsets + [Unit(n, i, 1), Unit(n, i, -1)];
    }
    forall o: Index | FaceOffset(o, n)
      ensures o in offsets
    {
      var axis: nat :| axis < n && (o == Unit(n, axis, 1) || o == Unit(n, axis, -1));
      assert offsets[2 * axis] in offsets && offsets[2 * axis + 1] in offsets;
    }
    forall i | 0 <= i < |offsets|
      ensures FaceOffset(offsets[i], n)
    {
      assert offsets[i] == if i % 2 == 0 then Unit(n, i / 2, 1) else Unit(n, i / 2, -1);
    }
  }
}
