/** The role machine for element content, with the check on connectors, as a machine on open groups. */
module ContentMachine {
  import opened ContentGrammar

  datatype Handler = Element1 | Element2 | Element3 | Element4 | Element5 | Element6 | Element7 | DeclClose | Failed

  datatype Connector = Unset | CommaSet | PipeSet

  /** An open group: what is known of its kind, the connector seen in it, and its finished particles. */
  datatype Frame = Frame(kind: Kind, connector: Connector, children: seq<Tree>)

  datatype Result = Pending | EmptyContent | AnyContent | Modelled(model: Tree)

  datatype State = State(handler: Handler, frames: seq<Frame>, result: Result)

  function Start(): State
  {
    State(Element1, [], Pending)
  }

  function Failure(): State
  {
    State(Failed, [], Pending)
  }

  function Top(frames: seq<Frame>): Frame
    requires frames != []
  {
    frames[|frames| - 1]
  }

  function Under(frames: seq<Frame>): seq<Frame>
    requires frames != []
  {
    frames[..|frames| - 1]
  }

  function WithTop(frames: seq<Frame>, f: Frame): seq<Frame>
    requires frames != []
  {
    Under(frames) + [f]
  }

  /** The innermost group gets one more particle. */
  function Added(frames: seq<Frame>, t: Tree): seq<Frame>
    requires frames != []
  {
    WithTop(frames, Top(frames).(children := Top(frames).children + [t]))
  }

  function OpenGroup(): Frame
  {
    Frame(Seq, Unset, [])
  }

  /** The innermost group ends and becomes a particle of the one around it, or the whole model. */
  function Ended(frames: seq<Frame>, quant: Quant): State
    requires frames != []
  {
    var t := Group(Top(frames).kind, Top(frames).children, quant);
    if |frames| == 1 then State(DeclClose, [], Modelled(t)) else State(Element7, Added(Under(frames), t), Pending)
  }

  function Connected(frames: seq<Frame>, connector: Connector): State
    requires frames != [] && connector != Unset
  {
    var f := Top(frames);
    if f.connector != Unset && f.connector != connector then Failure()
    else
      var kind := if connector == PipeSet then Choice else f.kind;
      State(Element6, WithTop(frames, Frame(kind, connector, f.children)), Pending)
  }

  function Step(s: State, tok: Token): State
  {
    if tok == White then s
    else match s.handler
      case Element1 =>
        if tok == Open then State(Element2, [OpenGroup()], Pending)
        else if tok == Name("EMPTY", Once) then State(DeclClose, [], EmptyContent)
        else if tok == Name("ANY", Once) then State(DeclClose, [], AnyContent)
        else Failure()
      case Element2 =>
        if s.frames == [] then Failure()
        else if tok == PcData then State(Element3, WithTop(s.frames, Top(s.frames).(kind := Mixed)), Pending)
        else if tok == Open then State(Element6, s.frames + [OpenGroup()], Pending)
        else if tok.Name? then State(Element7, Added(s.frames, Leaf(tok.name, tok.quant)), Pending)
        else Failure()
      case Element3 =>
        if s.frames == [] then Failure()
        else if tok == Close(Once) || tok == Close(Rep) then Ended(s.frames, tok.quant)
        else if tok == Or then s.(handler := Element4)
        else Failure()
      case Element4 =>
        if s.frames == [] then Failure()
        else if tok.Name? && tok.quant == Once then State(Element5, Added(s.frames, Leaf(tok.name, Once)), Pending)
        else Failure()
      case Element5 =>
        if s.frames == [] then Failure()
        else if tok == Close(Rep) then Ended(s.frames, Rep)
        else if tok == Or then s.(handler := Element4)
        else Failure()
      case Element6 =>
        if s.frames == [] then Failure()
        else if tok == Open then State(Element6, s.frames + [OpenGroup()], Pending)
        else if tok.Name? then State(Element7, Added(s.frames, Leaf(tok.name, tok.quant)), Pending)
        else Failure()
      case Element7 =>
        if s.frames == [] then Failure()
        else if tok.Close? then Ended(s.frames, tok.quant)
        else if tok == Comma then Connected(s.frames, CommaSet)
        else if tok == Or then Connected(s.frames, PipeSet)
        else Failure()
      case DeclClose => Failure()
      case Failed => Failure()
  }

  function Run(s: State, toks: seq<Token>): State
    decreases toks
  {
    if toks == [] then s else Step(Run(s, toks[..|toks| - 1]), toks[|toks| - 1])
  }

  lemma {:induction false} RunTwo(s: State, a: seq<Token>, b: seq<Token>)
    ensures Run(s, a + b) == Run(Run(s, a), b)
    decreases b
  {
    if b == [] {
      assert a + b == a;
    } else {
      assert (a + b)[..|a + b| - 1] == a + b[..|b| - 1];
      RunTwo(s, a, b[..|b| - 1]);
    }
  }

  lemma RunOne(s: State, tok: Token)
    ensures Run(s, [tok]) == Step(s, tok)
  {
    assert [tok][..0] == [];
  }

  lemma RunMore(s: State, toks: seq<Token>, tok: Token)
    ensures Run(s, toks + [tok]) == Step(Run(s, toks), tok)
  {
    RunTwo(s, toks, [tok]);
    RunOne(Run(s, toks), tok);
  }

  /** The tokens without white space. */
  function Strip(toks: seq<Token>): seq<Token>
    decreases toks
  {
    if toks == [] then []
    else if toks[|toks| - 1] == White then Strip(toks[..|toks| - 1])
    else Strip(toks[..|toks| - 1]) + [toks[|toks| - 1]]
  }

  lemma {:induction false} WhiteIgnored(s: State, toks: seq<Token>)
    ensures Run(s, toks) == Run(s, Strip(toks))
    decreases toks
  {
    if toks != [] {
      WhiteIgnored(s, toks[..|toks| - 1]);
      if toks[|toks| - 1] != White {
        RunMore(s, Strip(toks[..|toks| - 1]), toks[|toks| - 1]);
      }
    }
  }

  /** The particles of a group, each followed by its connector. */
  function Followed(f: Frame): seq<Token>
  {
    PrintEach(f.children, [], [Separator(f.kind)])
  }

  /** The particles of a group with the connectors between them. */
  function Joined(f: Frame): seq<Token>
    requires f.children != []
  {
    PrintEach(f.children[..|f.children| - 1], [], [Separator(f.kind)]) + Print(f.children[|f.children| - 1])
  }

  /** The tokens that led to the innermost group, from its opening on. */
  function TopRead(f: Frame, handler: Handler): seq<Token>
  {
    match handler
    case Element3 => [Open, PcData] + PrintEach(f.children, [Or], [])
    case Element4 => [Open, PcData] + PrintEach(f.children, [Or], []) + [Or]
    case Element5 => [Open, PcData] + PrintEach(f.children, [Or], [])
    case Element7 => [Open] + if f.children == [] then [] else Joined(f)
    case _ => [Open] + Followed(f)
  }

  /** The tokens that led to the groups around it. */
  function AroundRead(frames: seq<Frame>): seq<Token>
  {
    if frames == [] then [] else AroundRead(Under(frames)) + ([Open] + Followed(Top(frames)))
  }

  /** The tokens that led to a state, without white space. */
  function Read(s: State): seq<Token>
  {
    if s.frames != [] then AroundRead(Under(s.frames)) + TopRead(Top(s.frames), s.handler)
    else match s.result
      case Pending => []
      case EmptyContent => [Name("EMPTY", Once)]
      case AnyContent => [Name("ANY", Once)]
      case Modelled(model) => Print(model)
  }

  ghost predicate Particles(children: seq<Tree>)
  {
    forall i :: 0 <= i < |children| ==> Particle(children[i])
  }

  ghost predicate KindMatches(f: Frame)
  {
    f.kind != Mixed && (f.kind == Choice <==> f.connector == PipeSet) && Particles(f.children)
  }

  /** A group that waits for its next particle. */
  ghost predicate Waiting(f: Frame)
  {
    KindMatches(f) && (f.connector == Unset <==> f.children == [])
  }

  /** A group that has just got a particle. */
  ghost predicate Fed(f: Frame)
  {
    KindMatches(f) && f.children != [] && (f.connector == Unset <==> |f.children| == 1)
  }

  ghost predicate MixedFrame(f: Frame)
  {
    f.kind == Mixed && forall i :: 0 <= i < |f.children| ==> f.children[i].Leaf? && f.children[i].quant == Once
  }

  ghost predicate TopOk(f: Frame, handler: Handler, depth: nat)
  {
    match handler
    case Element2 => f == OpenGroup() && depth == 1
    case Element3 => MixedFrame(f) && f.children == [] && depth == 1
    case Element4 => MixedFrame(f) && depth == 1
    case Element5 => MixedFrame(f) && f.children != [] && depth == 1
    case Element6 => Waiting(f)
    case Element7 => Fed(f)
    case _ => false
  }

  /** What holds of every state that the machine reaches. */
  ghost predicate Sound(s: State)
  {
    if s.frames != [] then
      && TopOk(Top(s.frames), s.handler, |s.frames|) && s.result == Pending
      && forall k :: 0 <= k < |s.frames| - 1 ==> Waiting(s.frames[k])
    else match s.handler
      case Element1 => s.result == Pending
      case DeclClose => s.result != Pending && (s.result.Modelled? ==> Model(s.result.model))
      case Failed => s.result == Pending
      case _ => false
  }

  lemma {:induction false} PrintEachMore(children: seq<Tree>, t: Tree, before: seq<Token>, after: seq<Token>)
    ensures PrintEach(children + [t], before, after) == PrintEach(children, before, after) + (before + Print(t) + after)
  {
    assert (children + [t])[..|children|] == children;
  }

  /** A group opens inside one that waits for a particle. */
  lemma OpenStep(s: State)
    requires Sound(s) && s.handler in {Element2, Element6}
    ensures Sound(Step(s, Open)) && Read(Step(s, Open)) == Read(s) + [Open]
  {
    var after := s.frames + [OpenGroup()];
    assert Under(after) == s.frames && Top(after) == OpenGroup();
    assert forall k :: 0 <= k < |s.frames| - 1 ==> after[k] == s.frames[k];
    assert Followed(OpenGroup()) == [];
    assert [Open] + Followed(OpenGroup()) == [Open];
  }

  lemma FrameFed(f: Frame, t: Tree)
    requires Waiting(f) && Particle(t)
    ensures Fed(f.(children := f.children + [t]))
    ensures Joined(f.(children := f.children + [t])) == Followed(f) + Print(t)
  {
    var children := f.children + [t];
    assert children[..|children| - 1] == f.children;
    forall i | 0 <= i < |children|
      ensures Particle(children[i])
    {
    }
  }

  /** The state in which the innermost group has just changed. */
  lemma TopChanged(frames: seq<Frame>, f: Frame, handler: Handler)
    requires frames != [] && TopOk(f, handler, |frames|)
    requires forall k :: 0 <= k < |frames| - 1 ==> Waiting(frames[k])
    ensures Sound(State(handler, WithTop(frames, f), Pending))
    ensures Read(State(handler, WithTop(frames, f), Pending)) == AroundRead(Under(frames)) + TopRead(f, handler)
  {
    var after := WithTop(frames, f);
    assert Under(after) == Under(frames) && Top(after) == f;
    forall k | 0 <= k < |after| - 1
      ensures Waiting(after[k])
    {
      assert after[k] == frames[k];
    }
  }

  lemma Append3(a: seq<Token>, b: seq<Token>, c: seq<Token>)
    ensures a + (b + c) == a + b + c
  {
  }

  /** A group that waits gets a particle. */
  lemma FeedStep(frames: seq<Frame>, t: Tree, handler: Handler)
    requires frames != [] && Waiting(Top(frames)) && Particle(t) && handler in {Element2, Element6}
    requires forall k :: 0 <= k < |frames| - 1 ==> Waiting(frames[k])
    ensures Sound(State(Element7, Added(frames, t), Pending))
    ensures Read(State(Element7, Added(frames, t), Pending)) ==
            AroundRead(Under(frames)) + TopRead(Top(frames), handler) + Print(t)
  {
    var f := Top(frames);
    var g := f.(children := f.children + [t]);
    FrameFed(f, t);
    TopChanged(frames, g, Element7);
    Append3([Open], Followed(f), Print(t));
    Append3(AroundRead(Under(frames)), [Open] + Followed(f), Print(t));
  }

  lemma NameStep(s: State, tok: Token)
    requires Sound(s) && s.handler in {Element2, Element6} && tok.Name?
    ensures Sound(Step(s, tok)) && Read(Step(s, tok)) == Read(s) + [tok]
  {
    FeedStep(s.frames, Leaf(tok.name, tok.quant), s.handler);
  }

  /** The group that has just ended, as a particle. */
  lemma EndedTree(f: Frame, quant: Quant)
    requires Fed(f)
    ensures var t := Group(f.kind, f.children, quant);
            Particle(t) && Print(t) == TopRead(f, Element7) + [Close(quant)]
  {
  }

  lemma CloseOuter(s: State, quant: Quant)
    requires Sound(s) && s.handler == Element7 && |s.frames| == 1
    ensures Sound(Step(s, Close(quant))) && Read(Step(s, Close(quant))) == Read(s) + [Close(quant)]
  {
    EndedTree(Top(s.frames), quant);
    assert AroundRead(Under(s.frames)) == [];
    assert Read(s) == TopRead(Top(s.frames), Element7);
  }

  lemma CloseInner(s: State, quant: Quant)
    requires Sound(s) && s.handler == Element7 && |s.frames| > 1
    ensures Sound(Step(s, Close(quant))) && Read(Step(s, Close(quant))) == Read(s) + [Close(quant)]
  {
    var f := Top(s.frames);
    var around := Under(s.frames);
    EndedTree(f, quant);
    assert Top(around) == s.frames[|s.frames| - 2];
    FeedStep(around, Group(f.kind, f.children, quant), Element6);
    AroundSplit(around);
    Append3(AroundRead(around), TopRead(f, Element7), [Close(quant)]);
  }

  lemma AroundSplit(around: seq<Frame>)
    requires around != []
    ensures AroundRead(around) == AroundRead(Under(around)) + TopRead(Top(around), Element6)
  {
  }

  lemma CloseStep(s: State, quant: Quant)
    requires Sound(s) && s.handler == Element7
    ensures Sound(Step(s, Close(quant))) && Read(Step(s, Close(quant))) == Read(s) + [Close(quant)]
  {
    if |s.frames| == 1 {
      CloseOuter(s, quant);
    } else {
      CloseInner(s, quant);
    }
  }

  lemma FrameConnected(f: Frame, tok: Token)
    requires Fed(f) && (tok == Comma || tok == Or)
    requires f.connector == Unset || f.connector == if tok == Or then PipeSet else CommaSet
    ensures var g := Frame(if tok == Or then Choice else f.kind, if tok == Or then PipeSet else CommaSet, f.children);
            Waiting(g) && Followed(g) == Joined(f) + [tok]
  {
    var first := f.children[..|f.children| - 1];
    var g := Frame(if tok == Or then Choice else f.kind, if tok == Or then PipeSet else CommaSet, f.children);
    assert Separator(g.kind) == tok;
    assert PrintEach(first, [], [Separator(f.kind)]) == PrintEach(first, [], [tok]);
    Append3(PrintEach(first, [], [tok]), Print(f.children[|first|]), [tok]);
    assert [] + Print(f.children[|first|]) == Print(f.children[|first|]);
  }

  lemma ConnectStep(s: State, tok: Token)
    requires Sound(s) && s.handler == Element7 && (tok == Comma || tok == Or) && Step(s, tok).handler != Failed
    ensures Sound(Step(s, tok)) && Read(Step(s, tok)) == Read(s) + [tok]
  {
    var f := Top(s.frames);
    var g := Frame(if tok == Or then Choice else f.kind, if tok == Or then PipeSet else CommaSet, f.children);
    FrameConnected(f, tok);
    TopChanged(s.frames, g, Element6);
    Append3([Open], Joined(f), [tok]);
    Append3(AroundRead(Under(s.frames)), TopRead(f, Element7), [tok]);
  }

  lemma OnlyFrame(s: State)
    requires |s.frames| == 1
    ensures Read(s) == TopRead(Top(s.frames), s.handler)
  {
    assert AroundRead(Under(s.frames)) == [];
  }

  lemma PcDataRead()
    ensures TopRead(OpenGroup().(kind := Mixed), Element3) == TopRead(OpenGroup(), Element2) + [PcData]
  {
    assert TopRead(OpenGroup(), Element2) == [Open];
  }

  lemma PcDataStep(s: State)
    requires Sound(s) && s.handler == Element2
    ensures Sound(Step(s, PcData)) && Read(Step(s, PcData)) == Read(s) + [PcData]
  {
    var f := Top(s.frames).(kind := Mixed);
    TopChanged(s.frames, f, Element3);
    OnlyFrame(s);
    OnlyFrame(State(Element3, WithTop(s.frames, f), Pending));
    PcDataRead();
  }

  lemma MixedOr(s: State)
    requires Sound(s) && s.handler in {Element3, Element5}
    ensures Sound(Step(s, Or)) && Read(Step(s, Or)) == Read(s) + [Or]
  {
    OnlyFrame(s);
    OnlyFrame(s.(handler := Element4));
  }

  lemma MixedClose(s: State, quant: Quant)
    requires Sound(s) && s.handler in {Element3, Element5} && Step(s, Close(quant)).handler != Failed
    ensures Sound(Step(s, Close(quant))) && Read(Step(s, Close(quant))) == Read(s) + [Close(quant)]
  {
    OnlyFrame(s);
    MixedEnd(Top(s.frames), quant);
  }

  /** Character data with element names. */
  lemma MixedStep(s: State, tok: Token)
    requires Sound(s) && tok != White && Step(s, tok).handler != Failed
    requires s.handler in {Element3, Element4, Element5} || (s.handler == Element2 && tok == PcData)
    ensures Sound(Step(s, tok)) && Read(Step(s, tok)) == Read(s) + [tok]
  {
    if s.handler == Element4 {
      MixedName(s.frames, Top(s.frames), tok);
      OnlyFrame(s);
    } else if tok.Close? {
      MixedClose(s, tok.quant);
    } else if tok == Or {
      MixedOr(s);
    } else {
      PcDataStep(s);
    }
  }

  lemma MixedName(frames: seq<Frame>, f: Frame, tok: Token)
    requires |frames| == 1 && f == Top(frames) && MixedFrame(f) && tok.Name? && tok.quant == Once
    ensures var s := State(Element5, Added(frames, Leaf(tok.name, Once)), Pending);
            Sound(s) && Read(s) == TopRead(f, Element4) + [tok]
  {
    var t := Leaf(tok.name, Once);
    var g := f.(children := f.children + [t]);
    PrintEachMore(f.children, t, [Or], []);
    assert [Or] + Print(t) + [] == [Or, tok];
    TopChanged(frames, g, Element5);
    assert AroundRead(Under(frames)) == [];
    var each := PrintEach(f.children, [Or], []);
    assert [Open, PcData] + (each + [Or, tok]) == [Open, PcData] + each + [Or] + [tok];
  }

  lemma MixedEnd(f: Frame, quant: Quant)
    requires MixedFrame(f)
    ensures Print(Group(f.kind, f.children, quant)) == TopRead(f, Element5) + [Close(quant)]
  {
  }

  /** Every step that is not refused adds its token to what has been read. */
  lemma StepSound(s: State, tok: Token)
    requires Sound(s) && tok != White && Step(s, tok).handler != Failed
    ensures Sound(Step(s, tok)) && Read(Step(s, tok)) == Read(s) + [tok]
  {
    if s.handler in {Element2, Element6} && tok == Open {
      OpenStep(s);
    } else if s.handler in {Element2, Element6} && tok.Name? {
      NameStep(s, tok);
    } else if s.handler == Element7 && tok.Close? {
      CloseStep(s, tok.quant);
    } else if s.handler == Element7 {
      ConnectStep(s, tok);
    } else if s.handler == Element1 {
    } else {
      MixedStep(s, tok);
    }
  }

  /** A state reached without an error remembers exactly the tokens read. */
  lemma {:induction false} RunSound(toks: seq<Token>)
    requires Run(Start(), toks).handler != Failed
    ensures Sound(Run(Start(), toks)) && Read(Run(Start(), toks)) == Strip(toks)
    decreases toks
  {
    if toks != [] {
      var before := Run(Start(), toks[..|toks| - 1]);
      RunSound(toks[..|toks| - 1]);
      if toks[|toks| - 1] != White {
        StepSound(before, toks[|toks| - 1]);
      }
    }
  }

  function ConnectorOf(kind: Kind): Connector
  {
    if kind == Choice then PipeSet else CommaSet
  }

  /** The group whose first n particles have been read, each with its connector. */
  function Partly(kind: Kind, children: seq<Tree>, n: nat): Frame
    requires n <= |children|
  {
    if n == 0 then OpenGroup() else Frame(kind, ConnectorOf(kind), children[..n])
  }

  lemma ConnectorSet(frames: seq<Frame>, t: Tree, n: nat)
    requires t.Group? && t.kind != Mixed && 0 < n < |t.children|
    ensures Step(State(Element7, Added(frames + [Partly(t.kind, t.children, n - 1)], t.children[n - 1]), Pending),
                 Separator(t.kind)) == State(Element6, frames + [Partly(t.kind, t.children, n)], Pending)
  {
    var before := frames + [Partly(t.kind, t.children, n - 1)];
    assert Under(before) == frames && Under(Added(before, t.children[n - 1])) == frames;
    assert t.children[..n - 1] + [t.children[n - 1]] == t.children[..n];
  }

  lemma LastCloses(frames: seq<Frame>, t: Tree)
    requires frames != [] && Particle(t) && t.Group?
    ensures var n := |t.children| - 1;
            Step(State(Element7, Added(frames + [Partly(t.kind, t.children, n)], t.children[n]), Pending),
                Close(t.quant)) ==
            State(Element7, Added(frames, t), Pending)
  {
    var n := |t.children| - 1;
    var before := frames + [Partly(t.kind, t.children, n)];
    assert Under(before) == frames && Under(Added(before, t.children[n])) == frames;
    assert t.children[..n] + [t.children[n]] == t.children;
  }

  /** The tokens of a particle make the innermost group one particle longer. */
  lemma {:induction false} ParticleRuns(frames: seq<Frame>, t: Tree)
    requires frames != [] && Particle(t)
    ensures Run(State(Element6, frames, Pending), Print(t)) == State(Element7, Added(frames, t), Pending)
    decreases t, if t.Group? then |t.children| else 0
  {
    var s := State(Element6, frames, Pending);
    if t.Leaf? {
      RunOne(s, Name(t.name, t.quant));
    } else {
      var n := |t.children| - 1;
      var each := PrintEach(t.children[..n], [], [Separator(t.kind)]);
      RunOne(s, Open);
      RunTwo(s, [Open], each);
      EachRuns(frames, t, n);
      RunTwo(s, [Open] + each, Print(t.children[n]));
      ParticleRuns(frames + [Partly(t.kind, t.children, n)], t.children[n]);
      RunMore(s, [Open] + each + Print(t.children[n]), Close(t.quant));
      LastCloses(frames, t);
    }
  }

  lemma {:induction false} EachRuns(frames: seq<Frame>, t: Tree, n: nat)
    requires Particle(t) && t.Group? && n < |t.children|
    ensures Run(State(Element6, frames + [OpenGroup()], Pending),
             PrintEach(t.children[..n], [], [Separator(t.kind)])) ==
            State(Element6, frames + [Partly(t.kind, t.children, n)], Pending)
    decreases t, n
  {
    if n > 0 {
      var sep := Separator(t.kind);
      EachRuns(frames, t, n - 1);
      ParticleRuns(frames + [Partly(t.kind, t.children, n - 1)], t.children[n - 1]);
      EachPrints(t.children, n, sep);
      RunThree(State(Element6, frames + [OpenGroup()], Pending), PrintEach(t.children[..n - 1], [], [sep]),
               Print(t.children[n - 1]), sep);
      ConnectorSet(frames, t, n);
    }
  }

  lemma EachPrints(children: seq<Tree>, n: nat, sep: Token)
    requires 0 < n <= |children|
    ensures PrintEach(children[..n], [], [sep]) == PrintEach(children[..n - 1], [], [sep]) +
             (Print(children[n - 1]) + [sep])
  {
    assert children[..n][..n - 1] == children[..n - 1];
    assert [] + Print(children[n - 1]) == Print(children[n - 1]);
  }

  lemma RunThree(s: State, a: seq<Token>, b: seq<Token>, tok: Token)
    ensures Run(s, a + (b + [tok])) == Step(Run(Run(s, a), b), tok)
  {
    RunTwo(s, a, b + [tok]);
    RunMore(Run(s, a), b, tok);
  }

  predicate StartsParticle(tok: Token)
  {
    tok == Open || tok.Name?
  }

  /** The first group takes the first token of a particle as any group does. */
  lemma SecondLikeSixth(toks: seq<Token>)
    requires toks != [] && StartsParticle(toks[0])
    ensures Run(State(Element2, [OpenGroup()], Pending), toks) == Run(State(Element6, [OpenGroup()], Pending), toks)
  {
    assert toks == [toks[0]] + toks[1..];
    RunTwo(State(Element2, [OpenGroup()], Pending), [toks[0]], toks[1..]);
    RunTwo(State(Element6, [OpenGroup()], Pending), [toks[0]], toks[1..]);
    RunOne(State(Element2, [OpenGroup()], Pending), toks[0]);
    RunOne(State(Element6, [OpenGroup()], Pending), toks[0]);
  }

  lemma {:induction false} FirstToken(children: seq<Tree>, n: nat, sep: Token)
    requires n < |children| && Particles(children)
    ensures var toks := PrintEach(children[..n], [], [sep]) + Print(children[n]);
            toks != [] && StartsParticle(toks[0])
  {
    if n > 0 {
      FirstToken(children, n - 1, sep);
      EachPrints(children, n, sep);
    }
  }

  /** The tokens of a model of children, read from the start. */
  lemma ChildrenRun(t: Tree)
    requires t.Group? && Particle(t)
    ensures Run(Start(), Print(t)) == State(DeclClose, [], Modelled(t))
  {
    var n := |t.children| - 1;
    var sep := Separator(t.kind);
    var each := PrintEach(t.children[..n], [], [sep]);
    var last := Print(t.children[n]);
    var second, sixth := State(Element2, [OpenGroup()], Pending), State(Element6, [OpenGroup()], Pending);
    assert [] + [OpenGroup()] == [OpenGroup()];
    EachRuns([], t, n);
    RunTwo(sixth, each, last);
    ParticleRuns([Partly(t.kind, t.children, n)], t.children[n]);
    FirstToken(t.children, n, sep);
    SecondLikeSixth(each + last);
    RunOne(Start(), Open);
    RunTwo(Start(), [Open], each + last);
    RunMore(Start(), [Open] + (each + last), Close(t.quant));
    Append3([Open], each, last);
    RootCloses(t, n);
  }

  lemma RootCloses(t: Tree, n: nat)
    requires t.Group? && Particle(t) && n + 1 == |t.children|
    ensures Step(State(Element7, Added([] + [Partly(t.kind, t.children, n)], t.children[n]), Pending),
             Close(t.quant)) ==
            State(DeclClose, [], Modelled(t))
  {
    assert t.children[..n] + [t.children[n]] == t.children;
  }

  function MixedState(children: seq<Tree>): State
  {
    State(if children == [] then Element3 else Element5, [Frame(Mixed, Unset, children)], Pending)
  }

  lemma NameAdds(children: seq<Tree>, name: string)
    ensures Step(Step(MixedState(children), Or), Name(name, Once)) == MixedState(children + [Leaf(name, Once)])
  {
  }

  lemma {:induction false} NamesRun(children: seq<Tree>)
    requires forall i :: 0 <= i < |children| ==> children[i].Leaf? && children[i].quant == Once
    ensures Run(MixedState([]), PrintEach(children, [Or], [])) == MixedState(children)
    decreases children
  {
    if children != [] {
      var before, last := children[..|children| - 1], children[|children| - 1];
      NamesRun(before);
      var each := PrintEach(before, [Or], []);
      NamePrints(each, last.name);
      RunThree(MixedState([]), each, [Or], Name(last.name, Once));
      RunOne(MixedState(before), Or);
      NameAdds(before, last.name);
      assert before + [last] == children;
    }
  }

  lemma NamePrints(each: seq<Token>, name: string)
    ensures each + ([Or] + Print(Leaf(name, Once)) + []) == each + ([Or] + [Name(name, Once)])
  {
  }

  lemma MixedStarts()
    ensures Run(Start(), [Open, PcData]) == MixedState([])
  {
    RunOne(Start(), Open);
    RunMore(Start(), [Open], PcData);
    assert [Open] + [PcData] == [Open, PcData];
  }

  lemma MixedRun(t: Tree)
    requires MixedModel(t)
    ensures Run(Start(), Print(t)) == State(DeclClose, [], Modelled(t))
  {
    var each := PrintEach(t.children, [Or], []);
    MixedStarts();
    NamesRun(t.children);
    RunTwo(Start(), [Open, PcData], each);
    RunMore(Start(), [Open, PcData] + each, Close(t.quant));
  }

  lemma ModelRuns(t: Tree)
    requires Model(t)
    ensures Run(Start(), Print(t)) == State(DeclClose, [], Modelled(t))
  {
    if MixedModel(t) {
      MixedRun(t);
    } else {
      ChildrenRun(t);
    }
  }

  /** The machine accepts exactly the tokens of models, with white space anywhere, and remembers the model. */
  lemma AcceptsIff(toks: seq<Token>, t: Tree)
    ensures Run(Start(), toks) == State(DeclClose, [], Modelled(t)) <==> Model(t) && Strip(toks) == Print(t)
  {
    if Run(Start(), toks) == State(DeclClose, [], Modelled(t)) {
      RunSound(toks);
    }
    WhiteIgnored(Start(), toks);
    if Model(t) {
      ModelRuns(t);
    }
  }

  /** Different models have different tokens. */
  lemma PrintInjective(t: Tree, u: Tree)
    requires Model(t) && Model(u) && Print(t) == Print(u)
    ensures t == u
  {
    ModelRuns(t);
    ModelRuns(u);
  }
}
