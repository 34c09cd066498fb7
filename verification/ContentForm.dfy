/** How content models are written, told from sections 3.2.1 and 3.2.2 of XML 1.0. */
module ContentForm {
  import opened ContentGrammar

  /** Particles with a separator between any two. */
  function Listed(particles: seq<Tree>, separator: Token): seq<Token>
    requires particles != []
  {
    if |particles| == 1 then Print(particles[0])
    else Print(particles[0]) + [separator] + Listed(particles[1..], separator)
  }

  /** Names, each after a vertical bar. */
  function AfterBars(children: seq<Tree>): seq<Token>
    requires forall i :: 0 <= i < |children| ==> children[i].Leaf?
  {
    if children == [] then [] else [Or, Name(children[0].name, children[0].quant)] + AfterBars(children[1..])
  }

  lemma {:induction false} EachFromFront(children: seq<Tree>, separator: Token)
    requires children != []
    ensures PrintEach(children, [], [separator]) ==
            Print(children[0]) + [separator] + PrintEach(children[1..], [], [separator])
    decreases children
  {
    var n := |children| - 1;
    if n == 0 {
      assert children[..0] == [] && children[1..] == [];
    } else {
      EachFromFront(children[..n], separator);
      assert children[..n][1..] == children[1..][..n - 1];
    }
  }

  /** The particles but the last, each with a separator behind it, and the last. */
  function Parted(children: seq<Tree>, separator: Token): seq<Token>
    requires children != []
  {
    PrintEach(children[..|children| - 1], [], [separator]) + Print(children[|children| - 1])
  }

  lemma PartedFirst(children: seq<Tree>, separator: Token)
    requires |children| > 1
    ensures Parted(children, separator) == Print(children[0]) + [separator] + Parted(children[1..], separator)
  {
    var rest, front := children[1..], children[..|children| - 1];
    EachFromFront(front, separator);
    assert front[1..] == rest[..|rest| - 1] && front[0] == children[0];
    Regroup(Print(children[0]) + [separator], PrintEach(front[1..], [], [separator]), Print(rest[|rest| - 1]));
  }

  lemma Regroup(a: seq<Token>, b: seq<Token>, c: seq<Token>)
    ensures a + b + c == a + (b + c)
  {
  }

  lemma {:induction false} PartedIsListed(children: seq<Tree>, separator: Token)
    requires children != []
    ensures Parted(children, separator) == Listed(children, separator)
    decreases children
  {
    if |children| == 1 {
      assert PrintEach(children[..0], [], [separator]) == [];
    } else {
      PartedIsListed(children[1..], separator);
      PartedFirst(children, separator);
    }
  }

  lemma {:induction false} BarsFromFront(children: seq<Tree>)
    requires forall i :: 0 <= i < |children| ==> children[i].Leaf?
    ensures PrintEach(children, [Or], []) == AfterBars(children)
    decreases children
  {
    if |children| == 1 {
      assert children[..0] == [] && children[1..] == [];
    } else if children != [] {
      var n := |children| - 1;
      BarsFromFront(children[..n]);
      BarsFromFront(children[1..]);
      BarsSnoc(children);
    }
  }

  lemma {:induction false} BarsSnoc(children: seq<Tree>)
    requires children != [] && forall i :: 0 <= i < |children| ==> children[i].Leaf?
    ensures AfterBars(children) ==
            AfterBars(children[..|children| - 1])
                + [Or, Name(children[|children| - 1].name, children[|children| - 1].quant)]
    decreases children
  {
    var n := |children| - 1;
    if n == 0 {
      assert children[..0] == [] && children[1..] == [];
    } else {
      BarsSnoc(children[1..]);
      assert children[..n][1..] == children[1..][..n - 1];
    }
  }

  lemma PrintGroup(kind: Kind, children: seq<Tree>, quant: Quant)
    requires kind != Mixed && children != []
    ensures Print(Group(kind, children, quant)) ==
            [Open] + Listed(children, if kind == Seq then Comma else Or) + [Close(quant)]
  {
    var separator := if kind == Seq then Comma else Or;
    PartedIsListed(children, separator);
    Regroup([Open], PrintEach(children[..|children| - 1], [], [separator]), Print(children[|children| - 1]));
  }

  /**
   A name stands for itself; a sequence is its particles between commas and a choice its particles between bars, both
   in parentheses; a mixed model starts with #PCDATA. What may occur how often is written behind.
   */
  lemma PrintIs(t: Tree)
    requires Model(t) || Particle(t)
    ensures match t
            case Leaf(name, quant) => Print(t) == [Name(name, quant)]
            case Group(Seq, children, quant) =>
              children != [] && Print(t) == [Open] + Listed(children, Comma) + [Close(quant)]
            case Group(Choice, children, quant) =>
              |children| > 1 && Print(t) == [Open] + Listed(children, Or) + [Close(quant)]
            case Group(Mixed, children, quant) =>
              && (forall i :: 0 <= i < |children| ==> children[i].Leaf?)
              && Print(t) == [Open, PcData] + AfterBars(children) + [Close(quant)]
  {
    if t.Group? {
      if t.kind == Mixed {
        BarsFromFront(t.children);
      } else {
        PrintGroup(t.kind, t.children, t.quant);
      }
    }
  }
}
