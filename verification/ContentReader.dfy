/** The part of the prolog parser that reads a content model and hands the finished one to the application. */
module ContentReader {
  import opened Wrappers
  import opened ContentGrammar
  import opened ContentMachine
  import opened ContentScaffold
  import opened ContentBuilder
  import opened ContentBlock

  /** The handler and group level after a token, and the role of the token. */
  function Respond(handler: Handler, level: nat, tok: Token): (Handler, nat, Role)
  {
    if tok == White && handler != Failed then (handler, level, NoRole)
    else match handler
      case Element1 =>
        if tok == Open then (Element2, 1, GroupOpen)
        else if tok == Name("EMPTY", Once) then (DeclClose, level, ContentEmpty)
        else if tok == Name("ANY", Once) then (DeclClose, level, ContentAny)
        else (Failed, level, ErrorRole)
      case Element2 =>
        if tok == PcData then (Element3, level, ContentPcData)
        else if tok == Open then (Element6, 2, GroupOpen)
        else if tok.Name? then (Element7, level, ContentElement(tok.name, tok.quant))
        else (Failed, level, ErrorRole)
      case Element3 =>
        if tok == Close(Once) || tok == Close(Rep) then (DeclClose, level, GroupClose(tok.quant))
        else if tok == Or then (Element4, level, NoRole)
        else (Failed, level, ErrorRole)
      case Element4 =>
        if tok.Name? && tok.quant == Once then (Element5, level, ContentElement(tok.name, Once))
        else (Failed, level, ErrorRole)
      case Element5 =>
        if tok == Close(Rep) then (DeclClose, level, GroupClose(Rep))
        else if tok == Or then (Element4, level, NoRole)
        else (Failed, level, ErrorRole)
      case Element6 =>
        if tok == Open then (Element6, level + 1, GroupOpen)
        else if tok.Name? then (Element7, level, ContentElement(tok.name, tok.quant))
        else (Failed, level, ErrorRole)
      case Element7 =>
        if tok.Close? && level > 0 then (if level == 1 then DeclClose else Element7, level - 1, GroupClose(tok.quant))
        else if tok == Comma then (Element6, level, GroupSequence)
        else if tok == Or then (Element6, level, GroupChoice)
        else (Failed, level, ErrorRole)
      case DeclClose => (Failed, level, ErrorRole)
      case Failed => (Failed, level, ErrorRole)
  }

  /** When a role can come up, given the open groups and the level after the token. */
  ghost predicate Fits(frames: seq<Frame>, level: nat, role: Role)
  {
    match role
    case ErrorRole => false
    case GroupOpen => level == |frames| + 1
    case GroupClose(_) => frames != [] && (|frames| > 1 ==> level + 1 == |frames|)
    case GroupSequence => level == |frames| > 0 && KindMatches(Top(frames))
    case GroupChoice => level == |frames| > 0 && KindMatches(Top(frames))
    case ContentPcData => level == |frames| > 0
    case ContentElement(_, _) => level == |frames| > 0
    case _ => frames != [] ==> level == |frames|
  }

  /** What a role makes of the open groups; the handler only tells failure. */
  ghost function Acted(frames: seq<Frame>, result: Result, level: nat, role: Role): State
    requires Fits(frames, level, role)
  {
    match role
    case GroupOpen => State(Element6, frames + [OpenGroup()], Pending)
    case GroupClose(quant) => Ended(frames, quant)
    case GroupSequence => Connected(frames, CommaSet)
    case GroupChoice => Connected(frames, PipeSet)
    case ContentPcData => State(Element3, WithTop(frames, Top(frames).(kind := Mixed)), Pending)
    case ContentElement(name, quant) => State(Element7, Added(frames, Leaf(name, quant)), Pending)
    case ContentEmpty => State(DeclClose, frames, EmptyContent)
    case ContentAny => State(DeclClose, frames, AnyContent)
    case _ => State(Element1, frames, result)
  }

  /** A response and the action on its role make up the step of the machine. */
  ghost predicate MakesStep(s: State, r: (Handler, nat, Role), next: State)
  {
    && (r.2 == ErrorRole ==> next.handler == Failed)
    && (r.2 != ErrorRole ==>
          && r.0 != Failed && Fits(s.frames, r.1, r.2)
          && var t := Acted(s.frames, s.result, r.1, r.2);
          next == if t.handler == Failed then Failure() else t.(handler := r.0))
  }

  lemma RespondStep(s: State, level: nat, tok: Token)
    requires Sound(s) && (s.frames != [] ==> level == |s.frames|)
    ensures MakesStep(s, Respond(s.handler, level, tok), Step(s, tok))
  {
    if s.handler == Element7 {
      InGroupStep(s, level, tok);
    }
  }

  /** The step behind a name or an inner group. */
  lemma InGroupStep(s: State, level: nat, tok: Token)
    requires Sound(s) && s.handler == Element7 && level == |s.frames|
    ensures MakesStep(s, Respond(s.handler, level, tok), Step(s, tok))
  {
    assert Fed(Top(s.frames));
  }

  lemma ErrorFails(s: State, level: nat, tok: Token)
    requires Sound(s) && (s.frames != [] ==> level == |s.frames|) && Respond(s.handler, level, tok).2 == ErrorRole
    ensures Step(s, tok).handler == Failed
  {
    RespondStep(s, level, tok);
  }

  lemma RoleSource(s: State, level: nat, tok: Token)
    requires Sound(s)
    ensures Respond(s.handler, level, tok).2 !in {NoRole, ErrorRole} ==>
              Respond(s.handler, level, tok).0 != Element1 && (s.frames != [] || s.handler == Element1)
  {
  }

  /** What the action on a role leaves. */
  lemma ActedLeaves(frames: seq<Frame>, result: Result, level: nat, role: Role)
    requires Fits(frames, level, role) && (frames != [] ==> result == Pending)
    ensures var t := Acted(frames, result, level, role);
            && (t.handler != Failed && t.frames != [] ==> level == |t.frames|)
            && (role == NoRole ==> t.frames == frames && t.result == result && t.handler != Failed)
            && (role != NoRole ==> (t.result.Modelled? <==> role.GroupClose? && |frames| == 1))
  {
  }

  /** The state after a token that is not refused. */
  lemma AfterToken(s: State, level: nat, tok: Token) returns (t: State)
    requires Sound(s) && (s.frames != [] ==> level == |s.frames|)
    requires Respond(s.handler, level, tok).2 != ErrorRole
    ensures var r := Respond(s.handler, level, tok);
            && Fits(s.frames, r.1, r.2) && t == Acted(s.frames, s.result, r.1, r.2)
            && (Step(s, tok).handler == Failed <==> t.handler == Failed)
            && (t.handler != Failed ==> Step(s, tok) == t.(handler := r.0) && Sound(t.(handler := r.0)))
  {
    RespondStep(s, level, tok);
    SoundAfter(s, tok);
    t := AfterStep(s, Respond(s.handler, level, tok), Step(s, tok));
  }

  lemma AfterStep(s: State, r: (Handler, nat, Role), next: State) returns (t: State)
    requires MakesStep(s, r, next) && r.2 != ErrorRole && (next.handler != Failed ==> Sound(next))
    ensures Fits(s.frames, r.1, r.2) && t == Acted(s.frames, s.result, r.1, r.2)
    ensures next.handler == Failed <==> t.handler == Failed
    ensures t.handler != Failed ==> next == t.(handler := r.0) && Sound(t.(handler := r.0))
  {
    t := Acted(s.frames, s.result, r.1, r.2);
  }

  /** The state that the action on a role leads to, once the next handler is set. */
  ghost predicate ReadTo(t: State, next: State, handler: Handler, level: nat)
  {
    && (next.handler == Failed <==> t.handler == Failed)
    && (t.handler != Failed ==>
       next == t.(handler := handler) && Sound(next) && (t.frames != [] ==> level == |t.frames|))
  }

  /** A token that is not refused: its role can be acted on, and acting on it makes the step of the machine. */
  lemma Reading(s: State, level: nat, tok: Token) returns (t: State, next: State)
    requires Sound(s) && (s.frames != [] ==> level == |s.frames|) && Respond(s.handler, level, tok).2 != ErrorRole
    ensures next == Step(s, tok)
    ensures var r := Respond(s.handler, level, tok);
            && Fits(s.frames, r.1, r.2) && t == Acted(s.frames, s.result, r.1, r.2) && ReadTo(t, next, r.0, r.1)
            && (r.2 == NoRole ==> t.frames == s.frames && t.result == s.result && t.handler != Failed)
            && (r.2 == NoRole ==>
               r.1 == level && (s.frames != [] || r.0 == Element1 ==> s.frames != [] || s.handler == Element1))
            && (r.2 != NoRole ==> r.0 != Element1 && (s.frames != [] || s.handler == Element1))
            && (next.handler != Failed ==>
                  (s.result == Pending && next.result.Modelled? <==> r.2.GroupClose? && |s.frames| == 1))
  {
    t := AfterToken(s, level, tok);
    next := Step(s, tok);
    RoleSource(s, level, tok);
    var r := Respond(s.handler, level, tok);
    ActedLeaves(s.frames, s.result, r.1, r.2);
  }

  /** The fields are those of a reader that has to act on a role. */
  ghost predicate Ready(frames: seq<Frame>, result: Result, p: Fields, handler: Handler, role: Role, t: State,
                        next: State)
  {
    && |p.scaffIndex| <= |p.connectors| && ReadTo(t, next, handler, p.level)
    && if role == NoRole then
         && t.handler != Failed && t.frames == frames && t.result == result
         && (frames != [] || handler == Element1 ==> Tracks(frames, p))
       else
         && handler != Element1 && Tracks(frames, p.(level := |frames|))
         && Fits(frames, p.level, role) && t == Acted(frames, result, p.level, role)
  }

  /** The level is that of the next token already, while the scaffold follows the open groups. */
  lemma LevelAhead(s: State, p: Fields, tok: Token) returns (t: State, next: State)
    requires Sound(s) && |p.scaffIndex| <= |p.connectors|
    requires (s.frames != [] || s.handler == Element1 ==> Tracks(s.frames, p))
    requires Respond(s.handler, p.level, tok).2 != ErrorRole
    ensures next == Step(s, tok)
    ensures var r := Respond(s.handler, p.level, tok);
            && Ready(s.frames, s.result, p.(level := r.1), r.0, r.2, t, next)
            && (next.handler != Failed ==>
                  (s.result == Pending && next.result.Modelled? <==> r.2.GroupClose? && |s.frames| == 1))
  {
    t, next := Reading(s, p.level, tok);
    assert p.(level := p.level) == p;
  }

  /** What is left to do once a role has been acted on. */
  lemma Settled(t: State, next: State, handler: Handler, p: Fields)
    requires ReadTo(t, next, handler, p.level) && t.handler != Failed && handler != Element1
    requires t.frames != [] ==> Tracks(t.frames, p.(level := |t.frames|))
    ensures next == State(handler, t.frames, t.result) && Sound(next)
    ensures t.frames != [] ==> Tracks(t.frames, p)
  {
    assert t.frames != [] ==> p.(level := |t.frames|) == p;
  }

  lemma SoundAfter(s: State, tok: Token)
    requires Sound(s)
    ensures Step(s, tok).handler != Failed ==> Sound(Step(s, tok))
  {
    if tok != White && Step(s, tok).handler != Failed {
      StepSound(s, tok);
    }
  }

  lemma {:induction false} FailedStays(s: State, toks: seq<Token>)
    requires s.handler == Failed
    ensures Run(s, toks).handler == Failed
    decreases toks
  {
    if toks != [] {
      FailedStays(s, toks[..|toks| - 1]);
    }
  }

  /** Tokens that are refused somewhere are not those of a model. */
  lemma Refused(tokens: seq<Token>, i: nat)
    requires i < |tokens| && Run(Start(), tokens[..i + 1]).handler == Failed
    ensures forall t :: Model(t) ==> Strip(tokens) != Print(t)
  {
    assert tokens == tokens[..i + 1] + tokens[i + 1..];
    RunTwo(Start(), tokens[..i + 1], tokens[i + 1..]);
    FailedStays(Run(Start(), tokens[..i + 1]), tokens[i + 1..]);
    forall t | Model(t)
      ensures Strip(tokens) != Print(t)
    {
      AcceptsIff(tokens, t);
    }
  }

  lemma ReadAll(tokens: seq<Token>)
    requires Sound(Run(Start(), tokens))
    ensures var s := Run(Start(), tokens);
            if s.result.Modelled? then Model(s.result.model) && Strip(tokens) == Print(s.result.model)
            else forall t :: Model(t) ==> Strip(tokens) != Print(t)
  {
    var s := Run(Start(), tokens);
    if s.result.Modelled? {
      AcceptsIff(tokens, s.result.model);
    } else {
      forall t | Model(t)
        ensures Strip(tokens) != Print(t)
      {
        AcceptsIff(tokens, t);
      }
    }
  }

  /** One block of memory: exactly as many cells and characters as the model needs. */
  datatype Block = Block(cells: seq<Cell>, str: seq<char>)

  ghost predicate Fills(b: Block, t: Tree)
  {
    |b.cells| == Size(t) && |b.str| == Chars(t) && Shows(b.cells, b.str, 0, t)
  }

  class ModelReader {
    var handler: Handler
    var level: nat
    var groupConnector: seq<Connector>
    var scaffold: seq<Node>
    var scaffIndex: seq<nat>
    var scaffLevel: nat
    var contentStringLen: nat
    ghost var frames: seq<Frame>
    ghost var result: Result

    ghost function P(): Fields
      reads this`level, this`groupConnector, this`scaffold, this`scaffIndex, this`scaffLevel, this`contentStringLen
    {
      Fields(level, groupConnector, scaffold, scaffIndex, scaffLevel, contentStringLen)
    }

    ghost function Abstract(): State
      reads this
    {
      State(handler, frames, result)
    }

    ghost predicate Valid()
      reads this
    {
      && Sound(Abstract()) && |scaffIndex| <= |groupConnector|
      && (frames != [] || handler == Element1 ==> Tracks(frames, P()))
    }

    constructor ()
      ensures Valid() && Abstract() == Start()
    {
      handler, level, groupConnector, scaffold, scaffIndex, scaffLevel := Element1, 0, [], [], [], 0;
      contentStringLen, frames, result := 0, [], Pending;
    }

    /** A new declaration starts, after the name of the element. */
    method Declare()
      modifies this
      requires |scaffIndex| <= |groupConnector|
      ensures Valid() && Abstract() == Start()
    {
      handler, scaffold, scaffLevel, contentStringLen := Element1, [], 0, 0;
      frames, result := [], Pending;
    }

    /** The role of the next token. */
    method NextRole(tok: Token) returns (role: Role)
      modifies this`handler, this`level
      ensures (handler, level, role) == Respond(old(handler), old(level), tok)
    {
      var response := Respond(handler, level, tok);
      handler, level, role := response.0, response.1, response.2;
    }

    /** Adds a node and links it to the innermost group. */
    method NextScaffoldPart(node: Node) returns (next: nat)
      requires PartAllowed(scaffold, scaffIndex, scaffLevel)
      modifies this`scaffold
      ensures next == old(|scaffold|) && scaffold == WithPart(old(scaffold), scaffIndex, scaffLevel, node)
    {
      next := |scaffold|;
      if scaffLevel > 0 {
        var parent := scaffIndex[scaffLevel - 1];
        var p := scaffold[parent];
        if p.lastchild != 0 {
          scaffold := scaffold[p.lastchild := scaffold[p.lastchild].(nextsib := next)];
        }
        if p.childcnt == 0 {
          scaffold := scaffold[parent := scaffold[parent].(firstchild := next)];
        }
        scaffold := scaffold[parent := scaffold[parent].(lastchild := next, childcnt := p.childcnt + 1)];
      }
      scaffold := scaffold + [node];
    }

    /** The open groups before the level was changed by the token. */
    ghost predicate Tracked()
      reads this
    {
      |scaffIndex| <= |groupConnector| && Tracks(frames, P().(level := |frames|))
    }

    /** Makes room for one more level. */
    method GrowGroups()
      requires Tracked() && level == |frames| + 1
      modifies this`groupConnector, this`scaffIndex
      ensures Tracked() && level < |groupConnector| == |scaffIndex|
    {
      ghost var p := P().(level := |frames|);
      if level >= |groupConnector| {
        groupConnector := groupConnector +
            seq(if |groupConnector| > 0 then |groupConnector| else INIT_GROUP_SIZE, _ => Unset);
      }
      if |scaffIndex| < |groupConnector| {
        scaffIndex := scaffIndex + seq(|groupConnector| - |scaffIndex|, _ => 0);
      }
      GrownTracks(frames, p, groupConnector, scaffIndex);
    }

    /** Enters a group: no connector yet, and a node of its own. */
    method EnterGroup()
      requires level < |groupConnector| && scaffLevel < |scaffIndex| && PartAllowed(scaffold, scaffIndex, scaffLevel)
      modifies this`groupConnector, this`scaffIndex, this`scaffold, this`scaffLevel
      ensures groupConnector == old(groupConnector)[level := Unset] && scaffLevel == old(scaffLevel) + 1
      ensures scaffIndex == old(scaffIndex)[old(scaffLevel) := old(|scaffold|)]
      ensures scaffold ==
               WithPart(old(scaffold), old(scaffIndex), old(scaffLevel), GroupAt(Seq, Once, [], old(|scaffold|), 0))
    {
      groupConnector := groupConnector[level := Unset];
      var myindex := NextScaffoldPart(GroupAt(Seq, Once, [], |scaffold|, 0));
      scaffIndex := scaffIndex[scaffLevel := myindex];
      scaffLevel := scaffLevel + 1;
    }

    method AddGroup()
      requires Tracked() && level == |frames| + 1 < |groupConnector| == |scaffIndex|
      modifies this`groupConnector, this`scaffIndex, this`scaffold, this`scaffLevel
      ensures Tracks(frames + [OpenGroup()], P()) && |scaffIndex| == |groupConnector|
    {
      ghost var p := P().(level := |frames|);
      if frames != [] {
        TracksReach(frames, p);
      }
      EnterGroup();
      TracksOpen(frames, p, P(), scaffold);
    }

    method OnGroupOpen()
      requires Tracked() && level == |frames| + 1
      modifies this`groupConnector, this`scaffIndex, this`scaffold, this`scaffLevel, this`frames
      ensures Tracked() && frames == old(frames) + [OpenGroup()]
    {
      GrowGroups();
      AddGroup();
      frames := frames + [OpenGroup()];
      assert P() == P().(level := |frames|);
    }

    /** A comma or a vertical bar; the two must not meet in one group. */
    method OnConnector(connector: Connector) returns (ok: bool)
      requires Tracked() && level == |frames| > 0 && connector != Unset && KindMatches(Top(frames))
      modifies this`groupConnector, this`scaffold, this`frames
      ensures ok <==> Top(old(frames)).connector == Unset || Top(old(frames)).connector == connector
      ensures ok ==> Tracked() && State(Element6, frames, Pending) == Connected(old(frames), connector)
    {
      TracksReach(frames, P());
      var before := groupConnector[level];
      if before != Unset && before != connector {
        return false;
      }
      ghost var f := Frame(if connector == PipeSet then Choice else Top(frames).kind, connector, Top(frames).children);
      var here := scaffIndex[scaffLevel - 1];
      ghost var q := P().(connectors := groupConnector[level := connector],
                          scaffold := scaffold[here := scaffold[here].(nodeType := GroupNode(f.kind))]);
      TracksKind(frames, P(), f);
      assert scaffold[here := scaffold[here]] == scaffold;
      if connector == PipeSet && before == Unset && scaffold[here].nodeType != GroupNode(Mixed) {
        scaffold := scaffold[here := scaffold[here].(nodeType := GroupNode(Choice))];
      }
      groupConnector := groupConnector[level := connector];
      frames := WithTop(frames, f);
      assert P() == q == q.(level := |frames|);
      return true;
    }

    method OnPcData()
      requires Tracked() && level == |frames| > 0
      modifies this`scaffold, this`frames
      ensures Tracked() && frames == WithTop(old(frames), Top(old(frames)).(kind := Mixed))
    {
      TracksReach(frames, P());
      var here := scaffIndex[scaffLevel - 1];
      ghost var f := Top(frames).(kind := Mixed);
      TracksKind(frames, P(), f);
      assert groupConnector[level := groupConnector[level]] == groupConnector;
      scaffold := scaffold[here := scaffold[here].(nodeType := GroupNode(Mixed))];
      frames := WithTop(frames, f);
    }

    method OnElement(name: string, quant: Quant)
      requires Tracked() && level == |frames| > 0
      modifies this`scaffold, this`contentStringLen, this`frames
      ensures Tracked() && frames == Added(old(frames), Leaf(name, quant))
    {
      TracksReach(frames, P());
      TracksName(frames, P(), Leaf(name, quant));
      var _ := NextScaffoldPart(Node(NameNode, quant, name, 0, 0, 0, 0));
      contentStringLen := contentStringLen + |name| + 1;
      frames := Added(frames, Leaf(name, quant));
    }

    /** A group inside another one ends. */
    method OnInnerClose(quant: Quant)
      requires Tracked() && level + 1 == |frames| > 1
      modifies this`scaffold, this`scaffLevel, this`frames
      ensures Tracked() && frames == Ended(old(frames), quant).frames
    {
      ghost var p := P().(level := |frames|);
      TracksReach(frames, p);
      TracksClose(frames, p, quant);
      scaffLevel := scaffLevel - 1;
      var here := scaffIndex[scaffLevel];
      scaffold := scaffold[here := scaffold[here].(quant := quant)];
      frames := Ended(frames, quant).frames;
    }

    /** The outermost group ends: the model goes into one block of exactly the size needed. */
    method OnOuterClose(quant: Quant) returns (block: Block)
      requires |frames| == 1 && Tracks(frames, P().(level := 1))
      modifies this`scaffold, this`scaffLevel, this`contentStringLen, this`frames
      ensures frames == [] && scaffLevel == 0 && contentStringLen == 0
      ensures Fills(block, Ended(old(frames), quant).result.model)
    {
      ghost var t := Group(Top(frames).kind, Top(frames).children, quant);
      TracksReach(frames, P().(level := 1));
      ModelEnded(frames, quant);
      ModelChars(frames, quant);
      scaffLevel := scaffLevel - 1;
      var here := scaffIndex[scaffLevel];
      scaffold := scaffold[here := scaffold[here].(quant := quant)];
      frames := [];
      block := BuildModel(scaffold, contentStringLen, t);
      contentStringLen := 0;
    }

    /** Does what a role asks for; only the end of the outermost group makes a block. */
    method Act(role: Role, ghost t: State) returns (ok: bool, block: Option<Block>)
      requires Tracked() && Fits(frames, level, role) && t == Acted(frames, result, level, role)
      modifies this`groupConnector, this`scaffIndex, this`scaffold, this`scaffLevel, this`contentStringLen, this`frames
      ensures ok <==> t.handler != Failed
      ensures ok ==> frames == t.frames && |scaffIndex| <= |groupConnector| && (frames != [] ==> Tracked())
      ensures block.Some? <==> role.GroupClose? && |old(frames)| == 1
      ensures block.Some? ==> ok && t.result.Modelled? && Fills(block.value, t.result.model)
    {
      ok, block := true, None;
      match role {
        case GroupOpen => OnGroupOpen();
        case GroupSequence => ok := OnConnector(CommaSet);
        case GroupChoice => ok := OnConnector(PipeSet);
        case ContentPcData => OnPcData();
        case ContentElement(name, quant) => OnElement(name, quant);
        case GroupClose(quant) =>
          if scaffLevel > 1 {
            OnInnerClose(quant);
          } else {
            var b := OnOuterClose(quant);
            block := Some(b);
          }
        case _ =>
      }
    }

    /**
     Reads one token: the state goes through the step of the machine, and the token that ends a model yields
     the block that shows it. After an error the parser does not go on.
     */
    method Read(tok: Token) returns (ok: bool, block: Option<Block>)
      requires Valid()
      modifies this
      ensures ok <==> Step(old(Abstract()), tok).handler != Failed
      ensures ok ==> Valid() && Abstract() == Step(old(Abstract()), tok)
      ensures block.Some? <==> ok && old(result) == Pending && result.Modelled?
      ensures block.Some? ==> Fills(block.value, result.model)
    {
      if Respond(handler, level, tok).2 == ErrorRole {
        ErrorFails(Abstract(), level, tok);
        return false, None;
      }
      ghost var t, next := LevelAhead(Abstract(), P(), tok);
      ok, block := Advance(tok, t, next);
    }

    /** Takes over the handler and the level of an accepted token and acts on its role. */
    method Advance(tok: Token, ghost t: State, ghost next: State) returns (ok: bool, block: Option<Block>)
      requires var r := Respond(handler, level, tok); Ready(frames, result, P().(level := r.1), r.0, r.2, t, next)
      modifies this
      ensures ok <==> next.handler != Failed
      ensures ok ==> Valid() && Abstract() == next
      ensures block.Some? <==> Respond(old(handler), old(level), tok).2.GroupClose? && |old(frames)| == 1
      ensures block.Some? ==> ok && next.result.Modelled? && Fills(block.value, next.result.model)
    {
      ghost var p := P();
      var role := NextRole(tok);
      assert P() == p.(level := level);
      ok, block := Proceed(role, t, next);
    }

    /** Does what the role of an accepted token asks for. */
    method Proceed(role: Role, ghost t: State, ghost next: State) returns (ok: bool, block: Option<Block>)
      requires Ready(frames, result, P(), handler, role, t, next)
      modifies this
      ensures ok <==> next.handler != Failed
      ensures ok ==> Valid() && Abstract() == next
      ensures block.Some? <==> role.GroupClose? && |old(frames)| == 1
      ensures block.Some? ==> ok && next.result.Modelled? && Fills(block.value, next.result.model)
    {
      if role == NoRole {
        return true, None;
      }
      ok, block := Settle(role, t, next);
    }

    /**
     Reads the content model of a declaration. It succeeds exactly on the tokens of models, white space aside,
     and what it hands over shows the one model that has these tokens.
     */
    method ReadModel(tokens: seq<Token>) returns (block: Option<Block>)
      requires |scaffIndex| <= |groupConnector|
      modifies this
      ensures block.Some? ==> exists t :: Model(t) && Strip(tokens) == Print(t) && Fills(block.value, t)
      ensures block.None? ==> forall t :: Model(t) ==> Strip(tokens) != Print(t)
    {
      Declare();
      block := None;
      var i := 0;
      while i < |tokens|
        invariant i <= |tokens| && Valid() && Abstract() == Run(Start(), tokens[..i])
        invariant block.Some? <==> result.Modelled?
        invariant block.Some? ==> Fills(block.value, result.model)
      {
        assert tokens[..i + 1][..i] == tokens[..i];
        var ok, b := Read(tokens[i]);
        if !ok {
          Refused(tokens, i);
          return None;
        }
        block := if b.Some? then b else block;
        i := i + 1;
      }
      assert tokens[..i] == tokens;
      ReadAll(tokens);
    }

    /** Ready to act on a role other than none. */
    ghost predicate Settling(role: Role, t: State)
      reads this
    {
      Tracked() && handler != Element1 && Fits(frames, level, role) && t == Acted(frames, result, level, role)
    }

    /** Acts on a role and takes over the result. */
    method Settle(role: Role, ghost t: State, ghost next: State) returns (ok: bool, block: Option<Block>)
      requires Settling(role, t) && ReadTo(t, next, handler, level)
      modifies this
      ensures ok <==> next.handler != Failed
      ensures ok ==> Valid() && Abstract() == next
      ensures block.Some? <==> role.GroupClose? && |old(frames)| == 1
      ensures block.Some? ==> ok && next.result.Modelled? && Fills(block.value, next.result.model)
    {
      ok, block := Act(role, t);
      result := t.result;
      if ok {
        Settled(t, next, handler, P());
      }
    }
  }

  lemma ModelChars(frames: seq<Frame>, quant: Quant)
    requires |frames| == 1
    ensures CharsOf(frames) == Chars(Group(Top(frames).kind, Top(frames).children, quant))
  {
    assert CharsOf(Under(frames)) == 0;
  }

  /** Copies the scaffold of a finished model into one block. */
  method BuildModel(scaffold: seq<Node>, stringLen: nat, ghost t: Tree) returns (block: Block)
    requires scaffold == Flat(t, 0, 0) && stringLen == Chars(t)
    ensures Fills(block, t)
  {
    var cells := new Cell[|scaffold|](_ => Cell(NameNode, Once, 0, 0, 0));
    var str := new char[stringLen](_ => NUL);
    assert scaffold[0..0 + Size(t)] == scaffold;
    var cpos, spos := BuildNode(scaffold, 0, 0, 1, 0, cells, str, t, 0);
    assert cpos == |scaffold| && spos == stringLen;
    PlacedShows(cells[..], str[..], t, 0, 1, 0);
    block := Block(cells[..], str[..]);
  }
}
