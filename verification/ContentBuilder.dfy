/** Reading the tokens of a content model: the handlers of the role machine and what each role does to the scaffold. */
module ContentBuilder {
  import opened ContentGrammar
  import opened ContentMachine
  import opened ContentScaffold

  const INIT_GROUP_SIZE := 32

  datatype Role = NoRole | GroupOpen | GroupClose(quant: Quant) | GroupSequence | GroupChoice | ContentPcData
                | ContentElement(name: string, quant: Quant) | ContentEmpty | ContentAny | ErrorRole

  /** For every open group, its connector at its level and the place of its node in the stack of indices. */
  ghost predicate Indexed(frames: seq<Frame>, connectors: seq<Connector>, scaffIndex: seq<nat>)
  {
    frames != [] ==>
      && |connectors| > |frames| && connectors[|frames|] == Top(frames).connector
      && |scaffIndex| >= |frames| && scaffIndex[|frames| - 1] == Here(frames)
      && Indexed(Under(frames), connectors, scaffIndex)
  }

  lemma {:induction false} IndexedKept(frames: seq<Frame>, connectors: seq<Connector>, scaffIndex: seq<nat>,
                                       connectors': seq<Connector>, scaffIndex': seq<nat>)
    requires Indexed(frames, connectors, scaffIndex)
    requires |connectors'| >= |connectors| && |scaffIndex'| >= |scaffIndex|
    requires forall k :: 0 <= k <= |frames| && k < |connectors| ==> connectors'[k] == connectors[k]
    requires forall k :: 0 <= k < |frames| && k < |scaffIndex| ==> scaffIndex'[k] == scaffIndex[k]
    ensures Indexed(frames, connectors', scaffIndex')
  {
    if frames != [] {
      IndexedKept(Under(frames), connectors, scaffIndex, connectors', scaffIndex');
    }
  }

  /** The fields of the parser that hold the open groups. */
  datatype Fields = Fields(level: nat, connectors: seq<Connector>, scaffold: seq<Node>, scaffIndex: seq<nat>,
                           scaffLevel: nat, stringLen: nat)

  ghost predicate Tracks(frames: seq<Frame>, p: Fields)
  {
    && p.scaffLevel == |frames| && p.stringLen == CharsOf(frames) && Indexed(frames, p.connectors, p.scaffIndex)
    && (if frames != [] then p.level == |frames| && p.scaffold == Scaffold(frames) else p.scaffold == [])
  }

  /** The node of the innermost group can be reached. */
  predicate Reachable(p: Fields)
  {
    PartAllowed(p.scaffold, p.scaffIndex, p.scaffLevel) && p.scaffLevel > 0 && p.level < |p.connectors|
  }

  predicate PartAllowed(scaffold: seq<Node>, scaffIndex: seq<nat>, scaffLevel: nat)
  {
    scaffLevel > 0 ==>
      && scaffLevel <= |scaffIndex| && scaffIndex[scaffLevel - 1] < |scaffold|
      && scaffold[scaffIndex[scaffLevel - 1]].lastchild < |scaffold|
  }

  lemma TracksReach(frames: seq<Frame>, p: Fields)
    requires Tracks(frames, p) && frames != []
    ensures Reachable(p) && p.connectors[p.level] == Top(frames).connector
    ensures p.scaffIndex[p.scaffLevel - 1] == Here(frames)
    ensures p.scaffold[Here(frames)] == GroupAt(Top(frames).kind, Once, Top(frames).children, Here(frames), 0)
  {
    LinkAllowed(frames);
  }

  /** A node is added at the end of the scaffold, linked to the innermost group if there is one. */
  function WithPart(scaffold: seq<Node>, scaffIndex: seq<nat>, scaffLevel: nat, node: Node): seq<Node>
    requires PartAllowed(scaffold, scaffIndex, scaffLevel)
  {
    if scaffLevel == 0 then scaffold + [node] else Linked(scaffold, scaffIndex[scaffLevel - 1], node)
  }

  lemma TracksOpen(frames: seq<Frame>, p: Fields, q: Fields, part: seq<Node>)
    requires Tracks(frames, p) && PartAllowed(p.scaffold, p.scaffIndex, p.scaffLevel)
    requires |p.connectors| > |frames| + 1 && |p.scaffIndex| > |frames|
    requires part == WithPart(p.scaffold, p.scaffIndex, p.scaffLevel, GroupAt(Seq, Once, [], |p.scaffold|, 0))
    requires q == Fields(|frames| + 1, p.connectors[|frames| + 1 := Unset], part,
                         p.scaffIndex[p.scaffLevel := |p.scaffold|], p.scaffLevel + 1, p.stringLen)
    ensures Tracks(frames + [OpenGroup()], q)
  {
    var after := frames + [OpenGroup()];
    assert Under(after) == frames && Top(after) == OpenGroup();
    IndexedKept(frames, p.connectors, p.scaffIndex, q.connectors, q.scaffIndex);
    if frames != [] {
      TracksReach(frames, p);
      GroupLinked(frames);
    }
  }

  lemma TracksName(frames: seq<Frame>, p: Fields, t: Tree)
    requires Tracks(frames, p) && frames != [] && t.Leaf? && Reachable(p)
    ensures Tracks(Added(frames, t),
                   p.(scaffold := WithPart(p.scaffold, p.scaffIndex, p.scaffLevel, LeafNode(t)),
                      stringLen := p.stringLen + |t.name| + 1))
  {
    TracksReach(frames, p);
    LeafLinked(frames, t);
    CharsAdded(frames, t);
    assert Under(Added(frames, t)) == Under(frames);
  }

  /** The innermost group changes its kind or its connector. */
  lemma TracksKind(frames: seq<Frame>, p: Fields, f: Frame)
    requires Tracks(frames, p) && frames != [] && f.children == Top(frames).children && Reachable(p)
    ensures var here := p.scaffIndex[p.scaffLevel - 1];
            Tracks(WithTop(frames, f),
                   p.(connectors := p.connectors[p.level := f.connector],
                      scaffold := p.scaffold[here := p.scaffold[here].(nodeType := GroupNode(f.kind))]))
  {
    TracksReach(frames, p);
    KindSet(frames, f);
    assert Under(WithTop(frames, f)) == Under(frames) && Top(WithTop(frames, f)) == f;
    IndexedKept(Under(frames), p.connectors, p.scaffIndex, p.connectors[p.level := f.connector], p.scaffIndex);
  }

  lemma TracksClose(frames: seq<Frame>, p: Fields, quant: Quant)
    requires Tracks(frames, p) && |frames| > 1 && Reachable(p)
    ensures var here := p.scaffIndex[p.scaffLevel - 1];
            var t := Group(Top(frames).kind, Top(frames).children, quant);
            Tracks(Added(Under(frames), t),
                   p.(level := p.level - 1, scaffLevel := p.scaffLevel - 1,
                      scaffold := p.scaffold[here := p.scaffold[here].(quant := quant)]))
  {
    var t := Group(Top(frames).kind, Top(frames).children, quant);
    var under := Under(frames);
    TracksReach(frames, p);
    GroupEnded(frames, quant);
    CharsAdded(under, t);
    IndexedAdded(under, t, p.connectors, p.scaffIndex);
  }

  lemma IndexedAdded(frames: seq<Frame>, t: Tree, connectors: seq<Connector>, scaffIndex: seq<nat>)
    requires frames != [] && Indexed(frames, connectors, scaffIndex)
    ensures Indexed(Added(frames, t), connectors, scaffIndex)
  {
    assert Under(Added(frames, t)) == Under(frames);
    assert Top(Added(frames, t)).connector == Top(frames).connector;
  }

  lemma GrownTracks(frames: seq<Frame>, p: Fields, connectors: seq<Connector>, scaffIndex: seq<nat>)
    requires Tracks(frames, p) && p.connectors <= connectors && p.scaffIndex <= scaffIndex
    ensures Tracks(frames, p.(connectors := connectors, scaffIndex := scaffIndex))
  {
    IndexedKept(frames, p.connectors, p.scaffIndex, connectors, scaffIndex);
  }
}
