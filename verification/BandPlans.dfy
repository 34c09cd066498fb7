/** Two plans for one boundary sort the seeds alike, unless two bands around a component have boxes of one size. */
module BandPlans {
  import opened Wrappers
  import opened Grids
  import opened Marching
  import opened Neighborhoods
  import opened Components
  import opened Seeds
  import opened NarrowBandSeeds

  ghost predicate SameCells(a: seq<Index>, b: seq<Index>)
  {
    forall c :: c in a <==> c in b
  }

  lemma ConnectedAlike(offsets: seq<Index>, more: seq<Index>, cells: set<Index>, a: Index, b: Index)
    requires SameCells(offsets, more) && Connected(offsets, cells, a, b)
    ensures Connected(more, cells, a, b)
  {
    var path :| Chain(offsets, cells, path) && path[0] == a && path[|path| - 1] == b;
    forall i, j | 0 <= i < |path| && j == i + 1 < |path|
      ensures Linked(more, path[i], path[j])
    {
      assert Linked(offsets, path[i], path[j]);
    }
    assert Chain(more, cells, path);
  }

  /** The cells, split into components over some offsets. */
  ghost predicate Partition(offsets: seq<Index>, components: seq<seq<Index>>, owner: map<Index, nat>)
  {
    Symmetric(offsets) && Numbered(offsets, components, owner) && SettledBut(offsets, owner.Keys, owner, [])
  }

  lemma SameOwners(offsets: seq<Index>, a: seq<seq<Index>>, ownerA: map<Index, nat>, more: seq<Index>,
                   b: seq<seq<Index>>, ownerB: map<Index, nat>, c: Index, d: Index)
    requires Partition(offsets, a, ownerA) && Partition(more, b, ownerB) && SameCells(offsets, more)
    requires ownerA.Keys == ownerB.Keys && c in ownerA && d in ownerA && ownerA[c] == ownerA[d]
    ensures ownerB[c] == ownerB[d]
  {
    SameComponentIffConnected(offsets, a, ownerA, c, d);
    ConnectedAlike(offsets, more, ownerA.Keys, c, d);
    SameComponentIffConnected(more, b, ownerB, c, d);
  }

  /** The component of a cell has the same cells in every partition. */
  lemma SamePart(offsets: seq<Index>, a: seq<seq<Index>>, ownerA: map<Index, nat>, more: seq<Index>,
                 b: seq<seq<Index>>, ownerB: map<Index, nat>, c: Index)
    requires Partition(offsets, a, ownerA) && Partition(more, b, ownerB) && SameCells(offsets, more)
    requires ownerA.Keys == ownerB.Keys && c in ownerA
    ensures ownerA[c] < |a| && ownerB[c] < |b| && SameCells(a[ownerA[c]], b[ownerB[c]])
    ensures c in a[ownerA[c]]
  {
    assert Owns(a[ownerA[c]], ownerA, ownerA[c]) && Owns(b[ownerB[c]], ownerB, ownerB[c]);
    forall d
      ensures d in a[ownerA[c]] <==> d in b[ownerB[c]]
    {
      if d in ownerA && ownerA[d] == ownerA[c] {
        SameOwners(offsets, a, ownerA, more, b, ownerB, c, d);
      }
      if d in ownerB && ownerB[d] == ownerB[c] {
        SameOwners(more, b, ownerB, offsets, a, ownerA, c, d);
      }
    }
  }

  lemma DilatedAlike(a: seq<Index>, b: seq<Index>, offsets: seq<Index>, more: seq<Index>, d: Index)
    requires SameCells(a, b) && SameCells(offsets, more) && DilatedFrom(UpList(a), offsets, d)
    ensures DilatedFrom(UpList(b), more, d)
  {
    var k :| k in UpList(a) && Linked(offsets, k, d);
    var i :| 0 <= i < |a| && UpList(a)[i] == k;
    UpListMembers(b, a[i]);
    assert k in UpList(b) && Linked(more, k, d);
    UpDown(d);
    UpListMembers(a, Down(d));
    UpListMembers(b, Down(d));
  }

  lemma BoxesAlike(a: seq<Index>, b: seq<Index>, n: nat, low: Index, high: Index, low': Index, high': Index)
    requires SameCells(a, b) && forall c :: c in a ==> |c| == n
    requires BoxOf(a, n, low, high) && BoxOf(b, n, low', high')
    ensures low == low' && high == high'
  {
    forall k | 0 <= k < n
      ensures low[k] == low'[k] && high[k] == high'[k]
    {
      assert Attained(a, n, k, low[k]) && Attained(a, n, k, high[k]);
      assert Attained(b, n, k, low'[k]) && Attained(b, n, k, high'[k]);
    }
  }

  /** A box has one volume. */
  lemma VolumesAlike(a: seq<Index>, b: seq<Index>, n: nat, u: nat, v: nat)
    requires SameCells(a, b) && HasVolume(a, n, u) && HasVolume(b, n, v)
    ensures u == v
  {
    var low, high :| BoxOf(a, n, low, high) && IsVolume(low, high, u);
    var low', high' :| BoxOf(b, n, low', high') && IsVolume(low', high', v);
    BoxesAlike(a, b, n, low, high, low', high');
  }

  /** The box of band j is smaller than that of the chosen band. */
  ghost predicate Smaller(s: Split, n: nat, j: nat)
    requires s.chosen < |s.bands| && j < |s.bands|
  {
    exists u: nat, v: nat :: HasVolume(s.bands[s.chosen], n, u) && HasVolume(s.bands[j], n, v) && v < u
  }

  /** The chosen band has a larger box than every other. */
  ghost predicate StrictlyLargest(s: Split, n: nat)
  {
    s.chosen < |s.bands| && forall j :: 0 <= j < |s.bands| && j != s.chosen ==> Smaller(s, n, j)
  }

  /** No component of the plan has two largest bands. */
  ghost predicate Untied(plan: Plan, n: nat)
  {
    forall k :: 0 <= k < |plan.splits| ==> StrictlyLargest(plan.splits[k], n)
  }

  ghost predicate Parted(size: seq<nat>, faces: seq<Index>, s: Split)
  {
    Partition(faces, s.bands, s.owner) && Largest(s, |size|)
  }

  lemma InChosen(faces: seq<Index>, s: Split) returns (d: Index)
    requires Partition(faces, s.bands, s.owner) && s.chosen < |s.bands|
    ensures d in s.owner && s.owner[d] == s.chosen
  {
    assert Owns(s.bands[s.chosen], s.owner, s.chosen);
    d := s.bands[s.chosen][0];
  }

  /** Without ties both splits choose the same band. */
  lemma SameChoice(size: seq<nat>, faces: seq<Index>, s: Split, more: seq<Index>, t: Split)
    requires Parted(size, faces, s) && Parted(size, more, t) && SameCells(faces, more) && s.owner.Keys == t.owner.Keys
    requires StrictlyLargest(s, |size|)
    ensures SameCells(s.bands[s.chosen], t.bands[t.chosen])
  {
    var d := InChosen(faces, s);
    var e := InChosen(more, t);
    SamePart(faces, s.bands, s.owner, more, t.bands, t.owner, d);
    SamePart(faces, s.bands, s.owner, more, t.bands, t.owner, e);
    if s.owner[e] != s.chosen {
      TieBroken(size, faces, s, more, t, d, e);
    }
  }

  lemma TieBroken(size: seq<nat>, faces: seq<Index>, s: Split, more: seq<Index>, t: Split, d: Index, e: Index)
    requires Parted(size, faces, s) && Parted(size, more, t) && SameCells(faces, more) && s.owner.Keys == t.owner.Keys
    requires StrictlyLargest(s, |size|) && d in s.owner && e in s.owner && s.owner[d] == s.chosen
    requires t.owner[e] == t.chosen
    ensures s.owner[e] == s.chosen
  {
    SamePart(faces, s.bands, s.owner, more, t.bands, t.owner, d);
    SamePart(faces, s.bands, s.owner, more, t.bands, t.owner, e);
    if s.owner[e] != s.chosen {
      if t.owner[d] == t.chosen {
        SameOwners(more, t.bands, t.owner, faces, s.bands, s.owner, d, e);
      }
      var n := |size|;
      assert Smaller(s, n, s.owner[e]);
      var u: nat, v: nat :| HasVolume(s.bands[s.chosen], n, u) && HasVolume(s.bands[s.owner[e]], n, v) && v < u;
      assert NotLarger(t.bands, n, t.chosen, t.owner[d]);
      var x: nat, y: nat :| HasVolume(t.bands[t.chosen], n, x) && HasVolume(t.bands[t.owner[d]], n, y) && y <= x;
      VolumesAlike(s.bands[s.chosen], t.bands[t.owner[d]], n, u, y);
      VolumesAlike(s.bands[s.owner[e]], t.bands[t.chosen], n, v, x);
    }
  }

  /** So they take the same seeds from that band, and from the others. */
  lemma SplitAlike(size: seq<nat>, faces: seq<Index>, s: Split, more: seq<Index>, t: Split, boundary: seq<Index>,
                   c: Index)
    requires Parted(size, faces, s) && Parted(size, more, t) && SameCells(faces, more) && s.owner.Keys == t.owner.Keys
    requires StrictlyLargest(s, |size|)
    ensures InBand(s.bands, s.chosen, size, boundary, c) <==> InBand(t.bands, t.chosen, size, boundary, c)
    ensures InOther(s.bands, s.chosen, size, boundary, c) <==> InOther(t.bands, t.chosen, size, boundary, c)
  {
    SameChoice(size, faces, s, more, t);
    OtherIff(faces, s, size, boundary, c);
    OtherIff(more, t, size, boundary, c);
  }

  lemma OtherIff(faces: seq<Index>, s: Split, size: seq<nat>, boundary: seq<Index>, c: Index)
    requires Partition(faces, s.bands, s.owner) && s.chosen < |s.bands|
    ensures InOther(s.bands, s.chosen, size, boundary, c) <==>
              Inside(c, size) && Bordering(boundary, c) && Up(c) in s.owner && Up(c) !in s.bands[s.chosen]
  {
    assert Owns(s.bands[s.chosen], s.owner, s.chosen);
    if j: nat :| j != s.chosen && InBand(s.bands, j, size, boundary, c) {
      assert Owns(s.bands[j], s.owner, j);
    }
    if Inside(c, size) && Bordering(boundary, c) && Up(c) in s.owner && Up(c) !in s.bands[s.chosen] {
      var j := s.owner[Up(c)];
      assert Owns(s.bands[j], s.owner, j);
      assert InBand(s.bands, j, size, boundary, c);
    }
  }

  lemma PlanParts(boundary: seq<Index>, size: seq<nat>, plan: Plan)
    requires PlanOf(boundary, size, plan)
    ensures Partition(plan.offsets, plan.components, plan.owner) && |plan.splits| == |plan.components|
    ensures forall k :: 0 <= k < |plan.splits| ==> Parted(size, plan.faces, plan.splits[k])
  {
    VertexOffsetsSymmetric(plan.offsets, |size|);
    FaceOffsetsSymmetric(plan.faces, |size|);
    forall k | 0 <= k < |plan.splits|
      ensures Parted(size, plan.faces, plan.splits[k])
    {
      assert SplitOf(plan.components[k], size, plan.offsets, plan.faces, plan.splits[k]);
    }
  }

  /** The splits of the component of a boundary cell in two plans. */
  lemma SplitsAlike(boundary: seq<Index>, size: seq<nat>, plan: Plan, other: Plan, b: Index, c: Index)
    requires PlanOf(boundary, size, plan) && PlanOf(boundary, size, other) && Untied(plan, |size|) && b in plan.owner
    ensures b in other.owner && plan.owner[b] < |plan.splits| && other.owner[b] < |other.splits|
    ensures var s, t := plan.splits[plan.owner[b]], other.splits[other.owner[b]];
            && (InBand(s.bands, s.chosen, size, boundary, c) <==> InBand(t.bands, t.chosen, size, boundary, c))
            && (InOther(s.bands, s.chosen, size, boundary, c) <==> InOther(t.bands, t.chosen, size, boundary, c))
  {
    PlanParts(boundary, size, plan);
    PlanParts(boundary, size, other);
    SamePart(plan.offsets, plan.components, plan.owner, other.offsets, other.components, other.owner, b);
    var k, l := plan.owner[b], other.owner[b];
    var s, t := plan.splits[k], other.splits[l];
    assert SplitOf(plan.components[k], size, plan.offsets, plan.faces, s);
    assert SplitOf(other.components[l], size, other.offsets, other.faces, t);
    SameDilated(plan.components[k], other.components[l], plan.offsets, other.offsets, s, t);
    SplitAlike(size, plan.faces, s, other.faces, t, boundary, c);
  }

  lemma SameDilated(a: seq<Index>, b: seq<Index>, offsets: seq<Index>, more: seq<Index>, s: Split, t: Split)
    requires SameCells(a, b) && SameCells(offsets, more)
    requires forall d :: d in s.owner <==> DilatedFrom(UpList(a), offsets, d)
    requires forall d :: d in t.owner <==> DilatedFrom(UpList(b), more, d)
    ensures s.owner.Keys == t.owner.Keys
  {
    forall d
      ensures d in s.owner <==> d in t.owner
    {
      if d in s.owner {
        DilatedAlike(a, b, offsets, more, d);
      }
      if d in t.owner {
        DilatedAlike(b, a, more, offsets, d);
      }
    }
  }

  /** The same seeds are outside and inside. */
  ghost predicate SameSides(size: seq<nat>, boundary: seq<Index>, plan: Plan, other: Plan)
  {
    forall c :: && (OutsideSeed(plan, size, boundary, c) <==> OutsideSeed(other, size, boundary, c))
                && (InsideSeed(plan, size, boundary, c) <==> InsideSeed(other, size, boundary, c))
  }

  lemma CellOfComponent(boundary: seq<Index>, size: seq<nat>, plan: Plan, k: nat) returns (b: Index)
    requires PlanOf(boundary, size, plan) && k < |plan.splits|
    ensures b in plan.owner && plan.owner[b] == k
  {
    b := plan.components[k][0];
    assert Owns(plan.components[k], plan.owner, k);
  }

  lemma SidesFrom(boundary: seq<Index>, size: seq<nat>, plan: Plan, other: Plan, c: Index)
    requires PlanOf(boundary, size, plan) && PlanOf(boundary, size, other) && Untied(plan, |size|)
    ensures OutsideSeed(plan, size, boundary, c) ==> OutsideSeed(other, size, boundary, c)
    ensures InsideSeed(plan, size, boundary, c) ==> InsideSeed(other, size, boundary, c)
  {
    if OutsideSeed(plan, size, boundary, c) {
      var k :| 0 <= k < |plan.splits| && InBand(plan.splits[k].bands, plan.splits[k].chosen, size, boundary, c);
      var b := CellOfComponent(boundary, size, plan, k);
      SplitsAlike(boundary, size, plan, other, b, c);
    }
    if InsideSeed(plan, size, boundary, c) {
      var k :| 0 <= k < |plan.splits| && InOther(plan.splits[k].bands, plan.splits[k].chosen, size, boundary, c);
      var b := CellOfComponent(boundary, size, plan, k);
      SplitsAlike(boundary, size, plan, other, b, c);
    }
  }

  lemma SidesTo(boundary: seq<Index>, size: seq<nat>, plan: Plan, other: Plan, c: Index)
    requires PlanOf(boundary, size, plan) && PlanOf(boundary, size, other) && Untied(plan, |size|)
    ensures OutsideSeed(other, size, boundary, c) ==> OutsideSeed(plan, size, boundary, c)
    ensures InsideSeed(other, size, boundary, c) ==> InsideSeed(plan, size, boundary, c)
  {
    if OutsideSeed(other, size, boundary, c) {
      var k :| 0 <= k < |other.splits| && InBand(other.splits[k].bands, other.splits[k].chosen, size, boundary, c);
      var b := CellOfComponent(boundary, size, other, k);
      SplitsAlike(boundary, size, plan, other, b, c);
    }
    if InsideSeed(other, size, boundary, c) {
      var k :| 0 <= k < |other.splits| && InOther(other.splits[k].bands, other.splits[k].chosen, size, boundary, c);
      var b := CellOfComponent(boundary, size, other, k);
      SplitsAlike(boundary, size, plan, other, b, c);
    }
  }

  /** A plan without ties fixes on which side a seed is. */
  lemma SidesFixed(boundary: seq<Index>, size: seq<nat>, plan: Plan, other: Plan)
    requires PlanOf(boundary, size, plan) && PlanOf(boundary, size, other) && Untied(plan, |size|)
    ensures SameSides(size, boundary, plan, other)
  {
    forall c
      ensures OutsideSeed(plan, size, boundary, c) <==> OutsideSeed(other, size, boundary, c)
      ensures InsideSeed(plan, size, boundary, c) <==> InsideSeed(other, size, boundary, c)
    {
      SidesFrom(boundary, size, plan, other, c);
      SidesTo(boundary, size, plan, other, c);
    }
  }
}
