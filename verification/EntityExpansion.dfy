/** Expansion of entity references in attribute values, guarded by open flags. */
module EntityExpansion {
  import opened Wrappers
  import opened Bytes
  import opened XmlBytes
  import opened AttributeTokens

  datatype Error = NoError | InvalidToken | BadCharRef | UndefinedEntity | DeclaredInPe | RecursiveRef | BinaryRef
                 | ExternalRef | UnexpectedState

  type EntityName = seq<byte>

  /** What a declaration fixes: the text of an internal entity, or none for an external one. */
  datatype Declaration = Declaration(text: Option<seq<byte>>, isInternal: bool, hasNotation: bool)

  datatype Rules = Rules(naming: Naming, entities: map<EntityName, Declaration>, checkDeclared: bool)

  /** Where a value comes from: a declaration in the prolog or a tag in the content. */
  datatype Caller =
    | FromProlog(documentEntity: bool, standalone: bool, openInternalEntities: bool, hasParamEntityRefs: bool)
    | FromContent(standalone: bool, hasParamEntityRefs: bool)
  {
    /** Whether a reference to an undeclared entity is an error. */
    predicate ChecksDeclared()
    {
      match this
      case FromProlog(documentEntity, standalone, openInternalEntities, hasParamEntityRefs) =>
        documentEntity && if standalone then !openInternalEntities else !hasParamEntityRefs
      case FromContent(standalone, hasParamEntityRefs) => !hasParamEntityRefs || standalone
    }
  }

  /**
   In the content, section 4.1 of XML 1.0 decides: an entity must be declared in a standalone document, and where no
   parameter entity is referred to. In the prolog the rule is the same, but only in the document entity and, if that is
   standalone, with no internal entity open.
   */
  lemma ChecksDeclaredIff(documentEntity: bool, standalone: bool, openInternalEntities: bool, hasParamEntityRefs: bool)
    ensures FromContent(standalone, hasParamEntityRefs).ChecksDeclared() <==> standalone || !hasParamEntityRefs
    ensures FromProlog(documentEntity, standalone, openInternalEntities, hasParamEntityRefs).ChecksDeclared() <==>
              && documentEntity && FromContent(standalone, hasParamEntityRefs).ChecksDeclared()
              && !(standalone && openInternalEntities)
  {
  }

  /** What a token adds to the value: bytes as they are, or a space, which a tokenized value may drop. */
  datatype Piece = Raw(bytes: seq<byte>) | Space

  /** What the text of a value calls for, token by token, before the open flags are looked at. */
  datatype Script = End(error: Error) | Add(pieces: seq<Piece>, rest: Script) | Ref(name: EntityName, rest: Script)

  datatype Body = Refused(error: Error) | Content(script: Script)

  type Table = map<EntityName, Body>

  /** What one token calls for. */
  datatype Action = Halt(error: Error) | Emit(pieces: seq<Piece>, next: nat) | Enter(name: EntityName, next: nat)

  function ReferenceAction(rules: Rules, name: EntityName, next: nat): (a: Action)
    ensures !a.Halt? ==> a.next == next
    ensures a.Enter? ==> a.name == name && name in rules.entities
    ensures a.Halt? ==> a.error != RecursiveRef
  {
    if Predefined(name).Some? then Emit([Raw([Predefined(name).value])], next)
    else if name !in rules.entities then if rules.checkDeclared then Halt(UndefinedEntity) else Emit([], next)
    else if rules.checkDeclared && !rules.entities[name].isInternal then Halt(DeclaredInPe)
    else Enter(name, next)
  }

  function TokenAction(rules: Rules, text: seq<byte>, ptr: nat, t: Token): (a: Action)
    requires t == ValueToken(rules.naming, text, ptr)
    ensures !a.Halt? ==> ptr < a.next <= |text| && a.next == t.next
    ensures a.Enter? ==> a.name in rules.entities
    ensures a.Halt? ==> a.error != RecursiveRef
  {
    match t.kind
    case Nothing => Halt(NoError)
    case Invalid => Halt(InvalidToken)
    case Partial => Halt(InvalidToken)
    case PartialChar => Halt(UnexpectedState)
    case CharRef =>
      (match CharRefNumber(text, ptr)
       case None => Halt(BadCharRef)
       case Some(n) => Emit([if n == 0x20 then Space else Raw(Utf8(n))], t.next))
    case DataChars => Emit([Raw(text[ptr..t.next])], t.next)
    case TrailingCr => Emit([Space], t.next)
    case ValueS => Emit([Space], t.next)
    case Newline => Emit([Space], t.next)
    case EntityRef => ReferenceAction(rules, text[ptr + 1..t.next - 1], t.next)
  }

  function ScriptOf(rules: Rules, text: seq<byte>, ptr: nat): Script
    decreases |text| - ptr
  {
    match TokenAction(rules, text, ptr, ValueToken(rules.naming, text, ptr))
    case Halt(error) => End(error)
    case Emit(pieces, next) => Add(pieces, ScriptOf(rules, text, next))
    case Enter(name, next) => Ref(name, ScriptOf(rules, text, next))
  }

  function BodyOf(rules: Rules, d: Declaration): Body
  {
    if d.hasNotation then Refused(BinaryRef)
    else if d.text.None? then Refused(ExternalRef)
    else Content(ScriptOf(rules, d.text.value, 0))
  }

  function TableOf(rules: Rules): Table
  {
    map name | name in rules.entities :: BodyOf(rules, rules.entities[name])
  }

  datatype Expansion = Expansion(error: Error, pieces: seq<Piece>)

  function Then(first: Expansion, rest: Expansion): Expansion
  {
    if first.error != NoError then first else Expansion(rest.error, first.pieces + rest.pieces)
  }

  function Closed(table: Table, open: set<EntityName>): nat
  {
    |table.Keys - open|
  }

  lemma FewerClosed(table: Table, open: set<EntityName>, name: EntityName)
    requires name in table && name !in open
    ensures Closed(table, open + {name}) < Closed(table, open)
  {
    assert table.Keys - open == (table.Keys - (open + {name})) + {name};
  }

  /** The expansion of a script with the flags of some entities set. */
  function Expand(table: Table, open: set<EntityName>, s: Script): (r: Expansion)
    decreases Closed(table, open), s
  {
    match s
    case End(error) => Expansion(error, [])
    case Add(pieces, rest) => Then(Expansion(NoError, pieces), Expand(table, open, rest))
    case Ref(name, rest) =>
      if name in open then Expansion(RecursiveRef, [])
      else if name !in table then Expansion(UndefinedEntity, [])
      else match table[name]
        case Refused(error) => Expansion(error, [])
        case Content(inner) =>
          FewerClosed(table, open, name);
          Then(Expand(table, open + {name}, inner), Expand(table, open, rest))
  }

  function ThenUnguarded(first: Option<Expansion>, rest: Option<Expansion>): Option<Expansion>
  {
    if first.None? || first.value.error != NoError then first
    else if rest.None? then None
    else Some(Then(first.value, rest.value))
  }

  /** Expansion without flags, given up below a depth. */
  function Unguarded(table: Table, depth: nat, s: Script): (r: Option<Expansion>)
    decreases depth, s
  {
    match s
    case End(error) => Some(Expansion(error, []))
    case Add(pieces, rest) => ThenUnguarded(Some(Expansion(NoError, pieces)), Unguarded(table, depth, rest))
    case Ref(name, rest) =>
      if name !in table then Some(Expansion(UndefinedEntity, []))
      else match table[name]
        case Refused(error) => Some(Expansion(error, []))
        case Content(inner) =>
          if depth == 0 then None else ThenUnguarded(Unguarded(table, depth - 1, inner), Unguarded(table, depth, rest))
  }

  /** No refusal is a recursive reference. */
  ghost predicate Sensible(s: Script)
  {
    match s
    case End(error) => error != RecursiveRef
    case Add(_, rest) => Sensible(rest)
    case Ref(_, rest) => Sensible(rest)
  }

  ghost predicate SensibleTable(table: Table)
  {
    forall name <- table :: match table[name]
                            case Refused(error) => error != RecursiveRef
                            case Content(script) => Sensible(script)
  }

  /** An unguarded expansion that is not given up is the guarded one, unless that reports a recursive reference. */
  lemma {:induction false} GuardedIsUnguarded(table: Table, open: set<EntityName>, depth: nat, s: Script)
    requires Expand(table, open, s).error != RecursiveRef
    ensures Unguarded(table, depth, s).Some? ==> Unguarded(table, depth, s).value == Expand(table, open, s)
    decreases depth, s
  {
    match s {
      case End(_) =>
      case Add(_, rest) =>
        GuardedIsUnguarded(table, open, depth, rest);
      case Ref(name, rest) =>
        if name !in open && name in table && table[name].Content? && depth > 0 {
          GuardedIsUnguarded(table, open + {name}, depth - 1, table[name].script);
          if Expand(table, open + {name}, table[name].script).error == NoError {
            GuardedIsUnguarded(table, open, depth, rest);
          }
        }
    }
  }

  lemma OneDeeper(table: Table, open: set<EntityName>, depth: nat, name: EntityName)
    requires name in table && name !in open && depth >= Closed(table, open)
    ensures depth > 0 && depth - 1 >= Closed(table, open + {name})
  {
    FewerClosed(table, open, name);
  }

  /** It is not given up when the depth allows for every closed entity. */
  lemma {:induction false} DeepEnough(table: Table, open: set<EntityName>, depth: nat, s: Script)
    requires Expand(table, open, s).error != RecursiveRef && depth >= Closed(table, open)
    ensures Unguarded(table, depth, s).Some?
    decreases depth, s, 1
  {
    if s.Add? {
      DeepEnough(table, open, depth, s.rest);
    } else if s.Ref? && s.name in table && table[s.name].Content? {
      DeepEnoughInside(table, open, depth, s.name, table[s.name].script, s.rest);
    }
  }

  lemma {:induction false} DeepEnoughInside(table: Table, open: set<EntityName>, depth: nat, name: EntityName,
                                            inner: Script, rest: Script)
    requires name in table && name !in open && table[name] == Content(inner) && depth >= Closed(table, open)
    requires Then(Expand(table, open + {name}, inner), Expand(table, open, rest)).error != RecursiveRef
    ensures depth > 0 && ThenUnguarded(Unguarded(table, depth - 1, inner), Unguarded(table, depth, rest)).Some?
    decreases depth, rest, 2
  {
    OneDeeper(table, open, depth, name);
    DeepEnough(table, open + {name}, depth - 1, inner);
    GuardedIsUnguarded(table, open + {name}, depth - 1, inner);
    if Expand(table, open + {name}, inner).error == NoError {
      DeepEnough(table, open, depth, rest);
    }
  }

  /** No unguarded expansion of an entity to a depth below the bound comes to an end. */
  ghost predicate Endless(table: Table, name: EntityName, bound: nat)
  {
    && name in table && table[name].Content?
    && forall d: nat :: d < bound ==> Unguarded(table, d, table[name].script) == None
  }

  lemma {:induction false} RecursiveIsEndless(table: Table, open: set<EntityName>, depth: nat, s: Script)
    requires SensibleTable(table) && Sensible(s) && Expand(table, open, s).error == RecursiveRef
    requires forall name <- open :: Endless(table, name, depth)
    ensures Unguarded(table, depth, s) == None
    decreases depth, s
  {
    match s {
      case Add(_, rest) =>
        RecursiveIsEndless(table, open, depth, rest);
      case Ref(name, rest) =>
        if name in open {
          assert Endless(table, name, depth);
        } else if depth > 0 {
          var inner := Expand(table, open + {name}, table[name].script);
          if inner.error == RecursiveRef {
            assert forall n <- open :: Endless(table, n, depth) ==> Endless(table, n, depth - 1);
            EntityIsEndless(table, open, depth - 1, name);
            RecursiveIsEndless(table, open + {name}, depth - 1, table[name].script);
          } else {
            GuardedIsUnguarded(table, open + {name}, depth - 1, table[name].script);
            RecursiveIsEndless(table, open, depth, rest);
          }
        }
    }
  }

  lemma {:induction false} EntityIsEndless(table: Table, open: set<EntityName>, depth: nat, name: EntityName)
    requires SensibleTable(table) && name in table && table[name].Content? && name !in open
    requires Expand(table, open + {name}, table[name].script).error == RecursiveRef
    requires forall n <- open :: Endless(table, n, depth)
    ensures Endless(table, name, depth)
    decreases depth
  {
    if depth > 0 {
      assert forall n <- open :: Endless(table, n, depth) ==> Endless(table, n, depth - 1);
      EntityIsEndless(table, open, depth - 1, name);
      RecursiveIsEndless(table, open + {name}, depth - 1, table[name].script);
    }
  }

  /** However deep it may go, expansion without the flags does not come to an end. */
  ghost predicate Diverges(table: Table, s: Script)
  {
    forall depth: nat :: Unguarded(table, depth, s) == None
  }

  /** A recursive reference is reported exactly when expansion without the flags would never end. */
  lemma RecursiveIff(table: Table, s: Script)
    requires SensibleTable(table) && Sensible(s)
    ensures Expand(table, {}, s).error == RecursiveRef <==> Diverges(table, s)
  {
    if Expand(table, {}, s).error == RecursiveRef {
      forall depth: nat
        ensures Unguarded(table, depth, s) == None
      {
        RecursiveIsEndless(table, {}, depth, s);
      }
    } else {
      DeepEnough(table, {}, Closed(table, {}), s);
    }
  }

  /** When none is reported, the flags change nothing: as many levels as there are entities are enough. */
  lemma GuardsUnneeded(table: Table, depth: nat, s: Script)
    requires Expand(table, {}, s).error != RecursiveRef && depth >= Closed(table, {})
    ensures Unguarded(table, depth, s) == Some(Expand(table, {}, s))
  {
    DeepEnough(table, {}, depth, s);
    GuardedIsUnguarded(table, {}, depth, s);
  }
}
