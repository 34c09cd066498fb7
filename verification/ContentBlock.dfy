/** Copying a finished scaffold into one block: cells with their children side by side, then the names. */
module ContentBlock {
  import opened ContentGrammar
  import opened ContentScaffold

  const NUL: char := '\0'

  /** A cell as the application sees it: where its name or its children start. */
  datatype Cell = Cell(nodeType: NodeType, quant: Quant, name: nat, numchildren: nat, children: nat)

  /** The nodes of a tree stand in the scaffold at src. */
  ghost predicate StandsAt(scaffold: seq<Node>, src: nat, t: Tree, nextsib: nat)
  {
    src + Size(t) <= |scaffold| && scaffold[src..src + Size(t)] == Flat(t, src, nextsib)
  }

  ghost predicate AllStandAt(scaffold: seq<Node>, src: nat, children: seq<Tree>, nextsib: nat)
  {
    src + SizeAll(children) <= |scaffold| && scaffold[src..src + SizeAll(children)] == FlatAll(children, src, nextsib)
  }

  lemma GroupStands(scaffold: seq<Node>, src: nat, t: Tree, nextsib: nat)
    requires StandsAt(scaffold, src, t, nextsib) && t.Group?
    ensures scaffold[src] == GroupAt(t.kind, t.quant, t.children, src, nextsib)
    ensures AllStandAt(scaffold, src + 1, t.children, 0)
  {
    var whole := scaffold[src..src + Size(t)];
    assert whole[0] == scaffold[src];
    assert whole[1..] == scaffold[src + 1..src + 1 + SizeAll(t.children)];
  }

  lemma SplitSlice<T>(a: seq<T>, from: nat, m: nat, n: nat, x: seq<T>, y: seq<T>)
    requires from + m + n <= |a| && |x| == m && |y| == n && a[from..from + (m + n)] == x + y
    ensures a[from..from + m] == x && a[from + m..from + m + n] == y
  {
    var whole := a[from..from + (m + n)];
    assert whole[..m] == a[from..from + m] && whole[m..] == a[from + m..from + m + n];
    assert whole[..m] == x && whole[m..] == y;
  }

  lemma LastStands(scaffold: seq<Node>, src: nat, children: seq<Tree>, nextsib: nat)
    requires AllStandAt(scaffold, src, children, nextsib) && children != []
    ensures var before := children[..|children| - 1];
            var at := src + SizeAll(before);
            AllStandAt(scaffold, src, before, at) && StandsAt(scaffold, at, children[|children| - 1], nextsib)
  {
    var before, last := children[..|children| - 1], children[|children| - 1];
    var at := src + SizeAll(before);
    SplitSlice(scaffold, src, SizeAll(before), Size(last), FlatAll(before, src, at), Flat(last, at, nextsib));
  }

  /** A particle of a group stands behind those before it, and leads to the next one. */
  lemma {:induction false} ChildStands(scaffold: seq<Node>, src: nat, children: seq<Tree>, nextsib: nat, k: nat)
    requires AllStandAt(scaffold, src, children, nextsib) && k < |children|
    ensures StandsAt(scaffold, src + SizeAll(children[..k]), children[k],
                     NextOf(src, children, nextsib, k))
    decreases children
  {
    LastStands(scaffold, src, children, nextsib);
    var before := children[..|children| - 1];
    if k < |before| {
      ChildStands(scaffold, src, before, src + SizeAll(before), k);
      NextOfBefore(src, children, nextsib, k);
    }
  }

  /** The sibling that a particle leads to. */
  ghost function NextOf(src: nat, children: seq<Tree>, nextsib: nat, k: nat): nat
    requires k < |children|
  {
    if k + 1 < |children| then src + SizeAll(children[..k + 1]) else nextsib
  }

  lemma NextOfBefore(src: nat, children: seq<Tree>, nextsib: nat, k: nat)
    requires k + 1 < |children|
    ensures var before := children[..|children| - 1];
            before[..k] == children[..k]
                && NextOf(src, before, src + SizeAll(before), k) == NextOf(src, children, nextsib, k)
  {
    var before := children[..|children| - 1];
    assert before[..k] == children[..k];
    assert before[..k + 1] == children[..k + 1];
    assert k + 1 == |before| ==> before[..k + 1] == before;
  }

  /** The name stands in the characters at s, with its terminator. */
  ghost predicate NameAt(str: seq<char>, s: nat, name: string)
  {
    s + |name| < |str| && str[s..s + |name|] == name && str[s + |name|] == NUL
  }

  /** What an application finds when it follows the cell at i. */
  ghost predicate Shows(cells: seq<Cell>, str: seq<char>, i: nat, t: Tree)
    decreases t
  {
    && i < |cells| && cells[i].quant == t.quant
    && match t
       case Leaf(name, _) => cells[i].nodeType == NameNode && cells[i].numchildren == 0
           && NameAt(str, cells[i].name, name)
       case Group(kind, children, _) =>
         && cells[i].nodeType == GroupNode(kind) && cells[i].numchildren == |children|
         && forall k :: 0 <= k < |children| ==> Shows(cells, str, cells[i].children + k, children[k])
  }

  /** The cells and characters that a tree takes: one at dest, the others from c, the names from s. */
  ghost predicate Placed(cells: seq<Cell>, str: seq<char>, t: Tree, dest: nat, c: nat, s: nat)
    decreases t, 0
  {
    && dest < |cells| && cells[dest].quant == t.quant
    && match t
       case Leaf(name, _) =>
         cells[dest].nodeType == NameNode && cells[dest].numchildren == 0 && cells[dest].name == s
             && NameAt(str, s, name)
       case Group(kind, children, _) =>
         && cells[dest].nodeType == GroupNode(kind) && cells[dest].numchildren == |children|
            && cells[dest].children == c
         && AllPlaced(cells, str, children, c, c + |children|, s)
  }

  /** Particles side by side from c, what is inside them from b, their names from s. */
  ghost predicate AllPlaced(cells: seq<Cell>, str: seq<char>, children: seq<Tree>, c: nat, b: nat, s: nat)
    decreases children, 1
  {
    children != [] ==>
      var before := children[..|children| - 1];
      && AllPlaced(cells, str, before, c, b, s)
      && Placed(cells, str, children[|children| - 1], c + |before|, Inside(before, b), s + CharsAll(before))
  }

  /** Where the cells inside a particle start, after those inside the particles before it. */
  ghost function Inside(before: seq<Tree>, b: nat): nat
  {
    SizeAtLeast(before);
    b + SizeAll(before) - |before|
  }

  ghost predicate Same<T>(a: seq<T>, b: seq<T>, from: nat, to: nat)
  {
    |a| == |b| && forall k :: from <= k < to && k < |a| ==> a[k] == b[k]
  }

  lemma NameKept(str: seq<char>, str': seq<char>, s: nat, name: string)
    requires NameAt(str, s, name) && Same(str, str', s, s + |name| + 1)
    ensures NameAt(str', s, name)
  {
    assert str'[s..s + |name|] == str[s..s + |name|];
  }

  /** What is placed depends on its own cells and characters only. */
  lemma {:induction false} PlacedKept(cells: seq<Cell>, str: seq<char>, cells': seq<Cell>, str': seq<char>, t: Tree,
                                      dest: nat,
                                      c: nat, s: nat)
    requires Placed(cells, str, t, dest, c, s)
    requires Same(cells, cells', dest, dest + 1) && Same(cells, cells', c, c + Size(t) - 1)
    requires Same(str, str', s, s + Chars(t))
    ensures Placed(cells', str', t, dest, c, s)
    decreases t, 0
  {
    if t.Leaf? {
      NameKept(str, str', s, t.name);
    } else {
      SizeAtLeast(t.children);
      AllPlacedKept(cells, str, cells', str', t.children, c, c + |t.children|, s);
    }
  }

  lemma {:induction false} AllPlacedKept(cells: seq<Cell>, str: seq<char>, cells': seq<Cell>, str': seq<char>,
                                         children: seq<Tree>, c: nat, b: nat, s: nat)
    requires AllPlaced(cells, str, children, c, b, s)
    requires Same(cells, cells', c, c + |children|) && Same(cells, cells', b, Inside(children, b))
    requires Same(str, str', s, s + CharsAll(children))
    ensures AllPlaced(cells', str', children, c, b, s)
    decreases children, 1
  {
    if children != [] {
      var before := children[..|children| - 1];
      SizeAtLeast(before);
      AllPlacedKept(cells, str, cells', str', before, c, b, s);
      PlacedKept(cells, str, cells', str', children[|before|], c + |before|, Inside(before, b), s + CharsAll(before));
    }
  }

  /** An application that follows what is placed finds the tree. */
  lemma {:induction false} PlacedShows(cells: seq<Cell>, str: seq<char>, t: Tree, dest: nat, c: nat, s: nat)
    requires Placed(cells, str, t, dest, c, s)
    ensures Shows(cells, str, dest, t)
    decreases t, 0
  {
    if t.Group? {
      AllPlacedShow(cells, str, t.children, c, c + |t.children|, s);
    }
  }

  lemma {:induction false} AllPlacedShow(cells: seq<Cell>, str: seq<char>, children: seq<Tree>, c: nat, b: nat, s: nat)
    requires AllPlaced(cells, str, children, c, b, s)
    ensures forall k :: 0 <= k < |children| ==> Shows(cells, str, c + k, children[k])
    decreases children, 1
  {
    if children != [] {
      var before := children[..|children| - 1];
      AllPlacedShow(cells, str, before, c, b, s);
      PlacedShows(cells, str, children[|before|], c + |before|, Inside(before, b), s + CharsAll(before));
      assert forall k :: 0 <= k < |before| ==> before[k] == children[k];
    }
  }

  ghost predicate NamesTerminate(t: Tree)
  {
    match t
    case Leaf(name, _) => NUL !in name
    case Group(_, children, _) => forall i :: 0 <= i < |children| ==> NamesTerminate(children[i])
  }

  /** It finds no other tree. */
  lemma {:induction false} ShowsOne(cells: seq<Cell>, str: seq<char>, i: nat, t: Tree, u: Tree)
    requires Shows(cells, str, i, t) && Shows(cells, str, i, u) && NamesTerminate(t) && NamesTerminate(u)
    ensures t == u
    decreases t
  {
    if t.Leaf? {
      NameOne(str, cells[i].name, t.name, u.name);
    } else {
      forall k | 0 <= k < |t.children|
        ensures t.children[k] == u.children[k]
      {
        ShowsOne(cells, str, cells[i].children + k, t.children[k], u.children[k]);
      }
    }
  }

  lemma LongerNameStops(str: seq<char>, s: nat, a: string, b: string)
    requires NameAt(str, s, a) && NameAt(str, s, b) && |a| < |b|
    ensures NUL in b
  {
    assert b[|a|] == str[s..s + |b|][|a|] == str[s + |a|];
  }

  lemma NameOne(str: seq<char>, s: nat, a: string, b: string)
    requires NameAt(str, s, a) && NameAt(str, s, b) && NUL !in a && NUL !in b
    ensures a == b
  {
    if |a| < |b| {
      LongerNameStops(str, s, a, b);
    } else if |b| < |a| {
      LongerNameStops(str, s, b, a);
    }
  }

  /** Copies a name with its terminator. */
  method CopyName(name: string, str: array<char>, start: nat) returns (next: nat)
    requires start + |name| < str.Length
    modifies str
    ensures next == start + |name| + 1 && NameAt(str[..], start, name)
    ensures forall k :: 0 <= k < str.Length && !(start <= k < next) ==> str[k] == old(str[k])
  {
    var i := 0;
    while i < |name|
      invariant 0 <= i <= |name| && str[start..start + i] == name[..i]
      invariant forall k :: 0 <= k < str.Length && !(start <= k < start + i) ==> str[k] == old(str[k])
    {
      str[start + i] := name[i];
      i := i + 1;
    }
    str[start + i] := NUL;
    return start + i + 1;
  }

  /** Nothing was written outside a range. */
  ghost predicate Kept<T>(a: seq<T>, a': seq<T>, from: nat, to: nat)
  {
    |a'| == |a| && forall k :: 0 <= k < |a| && !(from <= k < to) ==> a'[k] == a[k]
  }

  /** Nor, in another cell than the given one. */
  ghost predicate KeptBut(cells: seq<Cell>, cells': seq<Cell>, dest: nat, from: nat, to: nat)
  {
    |cells'| == |cells| && forall k :: 0 <= k < |cells| && k != dest && !(from <= k < to) ==> cells'[k] == cells[k]
  }

  /** Copies a node and what is under it, taking cells at contpos and characters at strpos. */
  method BuildNode(scaffold: seq<Node>, src: nat, dest: nat, contpos: nat, strpos: nat, cells: array<Cell>,
                   str: array<char>,
                   ghost t: Tree, ghost nextsib: nat)
    returns (newCont: nat, newStr: nat)
    requires StandsAt(scaffold, src, t, nextsib) && dest < contpos
    requires contpos + Size(t) - 1 <= cells.Length && dest < cells.Length && strpos + Chars(t) <= str.Length
    modifies cells, str
    ensures newCont == contpos + Size(t) - 1 && newStr == strpos + Chars(t)
    ensures Placed(cells[..], str[..], t, dest, contpos, strpos)
    ensures KeptBut(old(cells[..]), cells[..], dest, contpos, newCont) && Kept(old(str[..]), str[..], strpos, newStr)
    decreases t, 0
  {
    RootStands(scaffold, src, t, nextsib);
    var node := scaffold[src];
    if node.nodeType == NameNode {
      cells[dest] := Cell(NameNode, node.quant, strpos, 0, 0);
      newCont := contpos;
      newStr := CopyName(node.name, str, strpos);
    } else {
      GroupStands(scaffold, src, t, nextsib);
      SizeAtLeast(t.children);
      cells[dest] := Cell(node.nodeType, node.quant, 0, node.childcnt, contpos);
      ghost var before := cells[..];
      newCont, newStr := BuildChildren(scaffold, src + 1, node.childcnt, node.firstchild, contpos, strpos, cells, str,
          t.children);
      assert cells[dest] == before[dest];
    }
  }

  lemma RootStands(scaffold: seq<Node>, src: nat, t: Tree, nextsib: nat)
    requires StandsAt(scaffold, src, t, nextsib)
    ensures src < |scaffold| && scaffold[src].nextsib == nextsib && scaffold[src].quant == t.quant
    ensures t.Leaf? ==> scaffold[src].nodeType == NameNode && scaffold[src].name == t.name
    ensures t.Group? ==> scaffold[src].nodeType == GroupNode(t.kind)
  {
    assert scaffold[src] == scaffold[src..src + Size(t)][0];
  }

  lemma {:induction false} PartSizes(children: seq<Tree>, k: nat, b: nat)
    requires k < |children|
    ensures SizeAll(children[..k + 1]) == SizeAll(children[..k]) + Size(children[k]) <= SizeAll(children)
    ensures Inside(children[..k + 1], b) == Inside(children[..k], b) + Size(children[k]) - 1 <= Inside(children, b)
    ensures CharsAll(children[..k + 1]) == CharsAll(children[..k]) + Chars(children[k]) <= CharsAll(children)
    decreases children
  {
    assert children[..k + 1][..k] == children[..k];
    if k + 1 < |children| {
      var before := children[..|children| - 1];
      assert before[..k + 1] == children[..k + 1] && before[..k] == children[..k];
      PartSizes(before, k, b);
      SizeAtLeast(before);
    } else {
      assert children[..k + 1] == children;
    }
  }

  /** The first k particles have been copied. */
  ghost predicate Copied(cells0: seq<Cell>, str0: seq<char>, cells: seq<Cell>, str: seq<char>, children: seq<Tree>,
                         k: nat,
                         c: nat, strpos: nat, contpos: nat, strnow: nat)
    requires k <= |children|
  {
    && contpos == Inside(children[..k], c + |children|) && strnow == strpos + CharsAll(children[..k])
    && AllPlaced(cells, str, children[..k], c, c + |children|, strpos)
    && Kept(cells0, cells, c, contpos) && Kept(str0, str, strpos, strnow)
  }

  lemma CopiedMore(cells0: seq<Cell>, str0: seq<char>, cells: seq<Cell>, str: seq<char>, cells': seq<Cell>,
                   str': seq<char>,
                   children: seq<Tree>, k: nat, c: nat, strpos: nat, contpos: nat, strnow: nat, cont': nat,
                       strnow': nat)
    requires k < |children| && Copied(cells0, str0, cells, str, children, k, c, strpos, contpos, strnow)
    requires cont' == contpos + Size(children[k]) - 1 && strnow' == strnow + Chars(children[k])
    requires Placed(cells', str', children[k], c + k, contpos, strnow)
    requires KeptBut(cells, cells', c + k, contpos, cont') && Kept(str, str', strnow, strnow')
    ensures Copied(cells0, str0, cells', str', children, k + 1, c, strpos, cont', strnow')
  {
    var before := children[..k];
    PartSizes(children, k, c + |children|);
    SizeAtLeast(before);
    AllPlacedKept(cells, str, cells', str', before, c, c + |children|, strpos);
    assert children[..k + 1][..k] == before;
  }

  /** Copies the particles of a group side by side from c on. */
  method BuildChildren(scaffold: seq<Node>, ghost src: nat, n: nat, first: nat, c: nat, strpos: nat, cells: array<Cell>,
                       str: array<char>, ghost children: seq<Tree>)
    returns (newCont: nat, newStr: nat)
    requires AllStandAt(scaffold, src, children, 0) && n == |children| && (n > 0 ==> first == src)
    requires c > 0 && Inside(children, c + n) <= cells.Length && strpos + CharsAll(children) <= str.Length
    modifies cells, str
    ensures newCont == Inside(children, c + n) && newStr == strpos + CharsAll(children)
    ensures AllPlaced(cells[..], str[..], children, c, c + n, strpos)
    ensures Kept(old(cells[..]), cells[..], c, newCont) && Kept(old(str[..]), str[..], strpos, newStr)
    decreases children, 1
  {
    var i: nat, cn := 0, first;
    newCont, newStr := c + n, strpos;
    ghost var cells0, str0 := cells[..], str[..];
    while i < n
      invariant i <= n && (i < n ==> cn == src + SizeAll(children[..i]))
      invariant Copied(cells0, str0, cells[..], str[..], children, i, c, strpos, newCont, newStr)
    {
      cn, newCont, newStr := BuildChild(scaffold, src, i, cn, c, strpos, newCont, newStr, cells, str, children, cells0,
          str0);
      i := i + 1;
    }
    assert children[..n] == children;
  }

  /** Copies one particle and finds the next. */
  method BuildChild(scaffold: seq<Node>, ghost src: nat, i: nat, cn: nat, c: nat, strpos: nat, contpos: nat,
                    strnow: nat,
                    cells: array<Cell>, str: array<char>, ghost children: seq<Tree>, ghost cells0: seq<Cell>,
                    ghost str0: seq<char>)
    returns (next: nat, newCont: nat, newStr: nat)
    requires AllStandAt(scaffold, src, children, 0) && i < |children| && cn == src + SizeAll(children[..i])
    requires c > 0 && Inside(children, c + |children|) <= cells.Length && strpos + CharsAll(children) <= str.Length
    requires Copied(cells0, str0, cells[..], str[..], children, i, c, strpos, contpos, strnow)
    modifies cells, str
    ensures Copied(cells0, str0, cells[..], str[..], children, i + 1, c, strpos, newCont, newStr)
    ensures i + 1 < |children| ==> next == src + SizeAll(children[..i + 1])
    decreases children, 0
  {
    ghost var before, text := cells[..], str[..];
    ghost var nextsib := if i + 1 < |children| then src + SizeAll(children[..i + 1]) else 0;
    ChildStands(scaffold, src, children, 0, i);
    RootStands(scaffold, cn, children[i], nextsib);
    PartSizes(children, i, c + |children|);
    SizeAtLeast(children[..i]);
    newCont, newStr := BuildNode(scaffold, cn, c + i, contpos, strnow, cells, str, children[i], nextsib);
    CopiedMore(cells0, str0, before, text, cells[..], str[..], children, i, c, strpos, contpos, strnow, newCont,
        newStr);
    next := scaffold[cn].nextsib;
  }
}
