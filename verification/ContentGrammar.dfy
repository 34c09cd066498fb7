/** Content models of element declarations, and their tokens; sections 3.2.1 and 3.2.2 of XML 1.0. */
module ContentGrammar {
  datatype Quant = Once | Opt | Rep | Plus

  datatype Kind = Seq | Choice | Mixed

  /** A content particle, or a whole model. */
  datatype Tree = Leaf(name: string, quant: Quant) | Group(kind: Kind, children: seq<Tree>, quant: Quant)

  /** Names and closing parentheses come with the quantifier that follows them; Other is any token not listed. */
  datatype Token = Open | Close(quant: Quant) | Name(name: string, quant: Quant) | Comma | Or | PcData | White | Other

  /** A name or a group of particles: a choice has at least two. */
  ghost predicate Particle(t: Tree)
  {
    match t
    case Leaf(_, _) => true
    case Group(kind, children, _) =>
      && kind != Mixed && children != [] && (kind == Choice ==> |children| > 1)
      && forall i :: 0 <= i < |children| ==> Particle(children[i])
  }

  /** Character data mixed with elements that are named once each; only bare character data needs no asterisk. */
  ghost predicate MixedModel(t: Tree)
  {
    && t.Group? && t.kind == Mixed
    && (forall i :: 0 <= i < |t.children| ==> t.children[i].Leaf? && t.children[i].quant == Once)
    && (t.quant == Rep || (t.quant == Once && t.children == []))
  }

  ghost predicate Model(t: Tree)
  {
    (t.Group? && Particle(t)) || MixedModel(t)
  }

  function Separator(kind: Kind): Token
  {
    if kind == Seq then Comma else Or
  }

  /** The tokens of a model. */
  function Print(t: Tree): seq<Token>
    decreases t, 0
  {
    match t
    case Leaf(name, quant) => [Name(name, quant)]
    case Group(kind, children, quant) =>
      if kind == Mixed then [Open, PcData] + PrintEach(children, [Or], []) + [Close(quant)]
      else if children == [] then [Open, Close(quant)]
      else
        [Open] + PrintEach(children[..|children| - 1], [], [Separator(kind)])
               + Print(children[|children| - 1]) + [Close(quant)]
  }

  /** The tokens of particles, each with something before and after it. */
  function PrintEach(children: seq<Tree>, before: seq<Token>, after: seq<Token>): seq<Token>
    decreases children, 1
  {
    if children == [] then []
    else
      PrintEach(children[..|children| - 1], before, after) + (before + Print(children[|children| - 1]) + after)
  }
}
