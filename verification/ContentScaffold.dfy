/** The scaffold of a content model under construction: nodes in the order of their first tokens, linked by index. */
module ContentScaffold {
  import opened ContentGrammar
  import opened ContentMachine

  /** The type of a node: a name or one of the kinds of groups. */
  datatype NodeType = NameNode | GroupNode(kind: Kind)

  datatype Node = Node(nodeType: NodeType, quant: Quant, name: string, firstchild: nat, lastchild: nat, childcnt: nat,
                       nextsib: nat)

  function Size(t: Tree): (n: nat)
    ensures n > 0
    decreases t, 0
  {
    match t
    case Leaf(_, _) => 1
    case Group(_, children, _) => 1 + SizeAll(children)
  }

  function SizeAll(children: seq<Tree>): nat
    decreases children, 1
  {
    if children == [] then 0 else SizeAll(children[..|children| - 1]) + Size(children[|children| - 1])
  }

  /** The place of the last of some particles that start at i, or zero. */
  function LastAt(children: seq<Tree>, i: nat): nat
  {
    if children == [] then 0 else i + SizeAll(children[..|children| - 1])
  }

  /** The node of a group at i, linked to its particles. */
  function GroupAt(kind: Kind, quant: Quant, children: seq<Tree>, i: nat, nextsib: nat): Node
  {
    Node(GroupNode(kind), quant, "", if children == [] then 0 else i + 1, LastAt(children, i + 1), |children|, nextsib)
  }

  /** The nodes of a finished particle that starts at i. */
  function Flat(t: Tree, i: nat, nextsib: nat): (nodes: seq<Node>)
    ensures |nodes| == Size(t)
    decreases t, 0
  {
    match t
    case Leaf(name, quant) => [Node(NameNode, quant, name, 0, 0, 0, nextsib)]
    case Group(kind, children, quant) => [GroupAt(kind, quant, children, i, nextsib)] + FlatAll(children, i + 1, 0)
  }

  /** The nodes of consecutive particles; the last one's sibling is given. */
  function FlatAll(children: seq<Tree>, i: nat, nextsib: nat): (nodes: seq<Node>)
    ensures |nodes| == SizeAll(children)
    decreases children, 1
  {
    if children == [] then []
    else
      var before := children[..|children| - 1];
      var at := i + SizeAll(before);
      FlatAll(before, i, at) + Flat(children[|children| - 1], at, nextsib)
  }

  /** The nodes of a group with an open group inside: that one will be the next sibling. */
  function FlatAround(f: Frame, i: nat): seq<Node>
  {
    var j := i + 1 + SizeAll(f.children);
    [Node(GroupNode(f.kind), Once, "", i + 1, j, |f.children| + 1, 0)] + FlatAll(f.children, i + 1, j)
  }

  function Around(frames: seq<Frame>): seq<Node>
  {
    if frames == [] then [] else Around(Under(frames)) + FlatAround(Top(frames), |Around(Under(frames))|)
  }

  /** The nodes of the innermost open group. */
  function FlatTop(f: Frame, i: nat): seq<Node>
  {
    [GroupAt(f.kind, Once, f.children, i, 0)] + FlatAll(f.children, i + 1, 0)
  }

  /** The scaffold of the open groups. */
  function Scaffold(frames: seq<Frame>): seq<Node>
    requires frames != []
  {
    Around(Under(frames)) + FlatTop(Top(frames), |Around(Under(frames))|)
  }

  /** Links a new node at the end of the scaffold to its parent. */
  function Linked(s: seq<Node>, parent: nat, node: Node): seq<Node>
    requires parent < |s| && s[parent].lastchild < |s|
  {
    var next := |s|;
    var p := s[parent];
    var t := if p.lastchild != 0 then s[p.lastchild := s[p.lastchild].(nextsib := next)] else s;
    var q := t[parent].(firstchild := if p.childcnt == 0 then next else p.firstchild, lastchild := next,
                        childcnt := p.childcnt + 1);
    t[parent := q] + [node]
  }

  /** Only the last particle's sibling depends on what follows. */
  lemma Resibling(children: seq<Tree>, i: nat, from: nat, to: nat)
    requires children != []
    ensures var k := SizeAll(children[..|children| - 1]);
            k < SizeAll(children)
            && FlatAll(children, i, to) ==
               FlatAll(children, i, from)[k := FlatAll(children, i, from)[k].(nextsib := to)]
  {
    var before := children[..|children| - 1];
    var at := i + SizeAll(before);
    var a, b := FlatAll(before, i, at), Flat(children[|children| - 1], at, from);
    assert FlatAll(children, i, from) == a + b;
    assert (a + b)[|a| := b[0].(nextsib := to)] == a + b[0 := b[0].(nextsib := to)];
  }

  lemma FlatAllMore(children: seq<Tree>, t: Tree, i: nat, nextsib: nat)
    ensures SizeAll(children + [t]) == SizeAll(children) + Size(t)
    ensures FlatAll(children + [t], i, nextsib) ==
            FlatAll(children, i, i + SizeAll(children)) + Flat(t, i + SizeAll(children), nextsib)
    ensures LastAt(children + [t], i) == i + SizeAll(children)
  {
    assert (children + [t])[..|children|] == children;
  }

  /** Linking a node to the innermost group turns its nodes into those of a group with one more part. */
  lemma LinkedTop(around: seq<Node>, f: Frame, node: Node)
    ensures var i := |around|;
            && SizeAll(f.children) >= |f.children|
               && GroupAt(f.kind, Once, f.children, i, 0).lastchild < |around + FlatTop(f, i)|
            && Linked(around + FlatTop(f, i), i, node) == around + (FlatAround(f, i) + [node])
  {
    var i, s := |around|, around + FlatTop(f, |around|);
    SizeAtLeast(f.children);
    var j := i + 1 + SizeAll(f.children);
    var list := FlatAll(f.children, i + 1, 0);
    assert |s| == j;
    if f.children == [] {
      assert Linked(s, i, node) == around + (FlatAround(f, i) + [node]);
    } else {
      Resibling(f.children, i + 1, 0, j);
      var k := SizeAll(f.children[..|f.children| - 1]);
      assert s[i + 1 + k] == list[k];
      assert Linked(s, i, node) == around + (FlatAround(f, i) + [node]);
    }
  }

  lemma {:induction false} SizeAtLeast(children: seq<Tree>)
    ensures SizeAll(children) >= |children|
  {
    if children != [] {
      SizeAtLeast(children[..|children| - 1]);
    }
  }

  /** Where the innermost group starts. */
  function Here(frames: seq<Frame>): nat
    requires frames != []
  {
    |Around(Under(frames))|
  }

  function LeafNode(t: Tree): Node
    requires t.Leaf?
  {
    Node(NameNode, t.quant, t.name, 0, 0, 0, 0)
  }

  lemma LinkAllowed(frames: seq<Frame>)
    requires frames != []
    ensures Here(frames) < |Scaffold(frames)|
    ensures Scaffold(frames)[Here(frames)] == GroupAt(Top(frames).kind, Once, Top(frames).children, Here(frames), 0)
    ensures Scaffold(frames)[Here(frames)].lastchild < |Scaffold(frames)|
  {
    LinkedTop(Around(Under(frames)), Top(frames), LeafNode(Leaf("", Once)));
  }

  /** The nodes of a group with one more finished particle. */
  lemma OneMore(f: Frame, t: Tree, i: nat)
    ensures FlatTop(f.(children := f.children + [t]), i) == FlatAround(f, i) + Flat(t, i + 1 + SizeAll(f.children), 0)
  {
    PartsMore(f.kind, f.children, t, i, i + 1 + SizeAll(f.children));
  }

  lemma PartsMore(kind: Kind, children: seq<Tree>, t: Tree, i: nat, j: nat)
    requires j == i + 1 + SizeAll(children)
    ensures [GroupAt(kind, Once, children + [t], i, 0)] + FlatAll(children + [t], i + 1, 0) ==
            [Node(GroupNode(kind), Once, "", i + 1, j, |children| + 1, 0)] + FlatAll(children, i + 1, j) + Flat(t, j, 0)
  {
    FlatAllMore(children, t, i + 1, 0);
    HeadThen(Node(GroupNode(kind), Once, "", i + 1, j, |children| + 1, 0), FlatAll(children, i + 1, j), Flat(t, j, 0));
  }

  lemma HeadThen(head: Node, a: seq<Node>, b: seq<Node>)
    ensures [head] + (a + b) == [head] + a + b
  {
  }

  /** A name is linked to the innermost group. */
  lemma LeafLinked(frames: seq<Frame>, t: Tree)
    requires frames != [] && t.Leaf? && Scaffold(frames)[Here(frames)].lastchild < |Scaffold(frames)|
    ensures Scaffold(Added(frames, t)) == Linked(Scaffold(frames), Here(frames), LeafNode(t))
  {
    var f, i := Top(frames), Here(frames);
    LinkedTop(Around(Under(frames)), f, LeafNode(t));
    OneMore(f, t, i);
    assert Under(Added(frames, t)) == Under(frames);
  }

  /** A new group is linked to the innermost one. */
  lemma GroupLinked(frames: seq<Frame>)
    requires frames != [] && Scaffold(frames)[Here(frames)].lastchild < |Scaffold(frames)|
    ensures Scaffold(frames + [OpenGroup()]) ==
            Linked(Scaffold(frames), Here(frames), GroupAt(Seq, Once, [], |Scaffold(frames)|, 0))
    ensures Here(frames + [OpenGroup()]) == |Scaffold(frames)|
  {
    var around, f, i := Around(Under(frames)), Top(frames), Here(frames);
    var node := GroupAt(Seq, Once, [], |Scaffold(frames)|, 0);
    LinkedTop(around, f, node);
    assert Under(frames + [OpenGroup()]) == frames;
    assert Around(frames) == around + FlatAround(f, i);
    assert FlatTop(OpenGroup(), |Around(frames)|) == [node];
    assert around + FlatAround(f, i) + [node] == around + (FlatAround(f, i) + [node]);
  }

  /** The end of a group sets its quantifier. */
  lemma GroupEnded(frames: seq<Frame>, quant: Quant)
    requires |frames| > 1
    ensures var t := Group(Top(frames).kind, Top(frames).children, quant);
            Here(frames) < |Scaffold(frames)|
            && Scaffold(Added(Under(frames), t)) ==
               Scaffold(frames)[Here(frames) := Scaffold(frames)[Here(frames)].(quant := quant)]
  {
    var f, under, p := Top(frames), Under(frames), Here(frames);
    var t := Group(f.kind, f.children, quant);
    var around, g, i := Around(Under(under)), Top(under), Here(under);
    assert Around(under) == around + FlatAround(g, i);
    OneMore(g, t, i);
    assert Under(Added(under, t)) == Under(under);
    assert Scaffold(Added(under, t)) == around + (FlatAround(g, i) + Flat(t, p, 0));
    QuantSet(f, quant, p);
    UpdateLast(around + FlatAround(g, i), FlatTop(f, p), FlatTop(f, p)[0].(quant := quant));
    assert around + (FlatAround(g, i) + Flat(t, p, 0)) == around + FlatAround(g, i) + Flat(t, p, 0);
  }

  lemma QuantSet(f: Frame, quant: Quant, p: nat)
    ensures Flat(Group(f.kind, f.children, quant), p, 0) == FlatTop(f, p)[0 := FlatTop(f, p)[0].(quant := quant)]
  {
  }

  lemma UpdateLast(a: seq<Node>, b: seq<Node>, node: Node)
    requires b != []
    ensures (a + b)[|a| := node] == a + b[0 := node] && (a + b)[|a|] == b[0]
  {
  }

  /** The end of the outermost group makes the scaffold that of the model. */
  lemma ModelEnded(frames: seq<Frame>, quant: Quant)
    requires |frames| == 1
    ensures var t := Group(Top(frames).kind, Top(frames).children, quant);
            Here(frames) == 0 && Flat(t, 0, 0) == Scaffold(frames)[0 := Scaffold(frames)[0].(quant := quant)]
  {
    assert Around(Under(frames)) == [];
    assert Scaffold(frames) == FlatTop(Top(frames), 0);
  }

  /** A connector, or character data, sets the kind of the innermost group. */
  lemma KindSet(frames: seq<Frame>, f: Frame)
    requires frames != [] && f.children == Top(frames).children
    ensures Here(WithTop(frames, f)) == Here(frames) < |Scaffold(frames)|
    ensures Scaffold(WithTop(frames, f)) ==
            Scaffold(frames)[Here(frames) := Scaffold(frames)[Here(frames)].(nodeType := GroupNode(f.kind))]
  {
    assert Under(WithTop(frames, f)) == Under(frames);
  }

  /** The characters that names take, each with a terminator. */
  function Chars(t: Tree): nat
    decreases t, 0
  {
    match t
    case Leaf(name, _) => |name| + 1
    case Group(_, children, _) => CharsAll(children)
  }

  function CharsAll(children: seq<Tree>): nat
    decreases children, 1
  {
    if children == [] then 0 else CharsAll(children[..|children| - 1]) + Chars(children[|children| - 1])
  }

  function CharsOf(frames: seq<Frame>): nat
  {
    if frames == [] then 0 else CharsOf(Under(frames)) + CharsAll(Top(frames).children)
  }

  lemma CharsAdded(frames: seq<Frame>, t: Tree)
    requires frames != []
    ensures CharsOf(Added(frames, t)) == CharsOf(frames) + Chars(t)
  {
    var children := Top(frames).children + [t];
    assert children[..|children| - 1] == Top(frames).children;
    assert Under(Added(frames, t)) == Under(frames);
  }
}
