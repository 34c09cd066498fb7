/** Storing an attribute value: the pieces of its expansion go to the pool, with white space tidied where asked for. */
module AttributeValues {
  import opened Wrappers
  import opened Bytes
  import opened XmlBytes
  import opened AttributeTokens
  import opened EntityExpansion

  /** The pool after one piece: in a tokenized value a space is dropped at the start and after a space. */
  function StorePiece(isCdata: bool, pool: seq<byte>, piece: Piece): seq<byte>
  {
    match piece
    case Raw(bytes) => pool + bytes
    case Space => if !isCdata && (pool == [] || pool[|pool| - 1] == SPACE) then pool else pool + [SPACE]
  }

  function Store(isCdata: bool, pool: seq<byte>, pieces: seq<Piece>): seq<byte>
    decreases pieces
  {
    if pieces == [] then pool else Store(isCdata, StorePiece(isCdata, pool, pieces[0]), pieces[1..])
  }

  lemma {:induction false} StoreTwo(isCdata: bool, pool: seq<byte>, a: seq<Piece>, b: seq<Piece>)
    ensures Store(isCdata, pool, a + b) == Store(isCdata, Store(isCdata, pool, a), b)
    decreases a
  {
    if a == [] {
      assert a + b == b;
    } else {
      assert (a + b)[1..] == a[1..] + b;
      StoreTwo(isCdata, StorePiece(isCdata, pool, a[0]), a[1..], b);
    }
  }

  /** Every space stands between two other characters, except perhaps for one at the end. */
  ghost predicate SingleSpaced(v: seq<byte>)
  {
    forall i :: 0 <= i < |v| && v[i] == SPACE ==> i > 0 && v[i - 1] != SPACE
  }

  ghost predicate Spaceless(pieces: seq<Piece>)
  {
    forall i :: 0 <= i < |pieces| && pieces[i].Raw? ==> SPACE !in pieces[i].bytes
  }

  lemma {:induction false} StoreSingleSpaced(pool: seq<byte>, pieces: seq<Piece>)
    requires SingleSpaced(pool) && Spaceless(pieces)
    ensures SingleSpaced(Store(false, pool, pieces))
    decreases pieces
  {
    if pieces != [] {
      var next := StorePiece(false, pool, pieces[0]);
      assert SingleSpaced(next) by {
        if pieces[0].Raw? {
          assert forall i :: |pool| <= i < |next| ==> next[i] in pieces[0].bytes;
        }
      }
      StoreSingleSpaced(next, pieces[1..]);
    }
  }

  /** Every character of several bytes is there as a whole. */
  ghost predicate WholeChars(text: seq<byte>)
  {
    && (forall i :: 0 <= i < |text| ==> i + CharLength(text[i]) <= |text|)
    && (forall i, j :: 0 <= i < j < |text| && j < i + CharLength(text[i]) ==> text[j] >= 0x80)
  }

  lemma {:induction false} DataSpaceless(text: seq<byte>, start: nat, ptr: nat)
    requires WholeChars(text) && start <= ptr <= |text| && SPACE !in text[start..ptr]
    ensures SPACE !in text[start..DataFrom(text, ptr).next]
    decreases |text| - ptr
  {
    if ptr < |text| && !EndsData(text[ptr]) {
      PastCharSpaceless(text, start, ptr);
      DataSpaceless(text, start, PastChar(text, ptr));
    }
  }

  lemma PastCharSpaceless(text: seq<byte>, start: nat, ptr: nat)
    requires WholeChars(text) && start <= ptr < |text| && SPACE !in text[start..ptr] && !EndsData(text[ptr])
    ensures SPACE !in text[start..PastChar(text, ptr)]
  {
    var next := PastChar(text, ptr);
    forall i | start <= i < next
      ensures text[i] != SPACE
    {
      if i < ptr {
        assert text[i] in text[start..ptr];
      }
    }
  }

  ghost predicate ScriptSpaceless(s: Script)
  {
    match s
    case End(_) => true
    case Add(pieces, rest) => Spaceless(pieces) && ScriptSpaceless(rest)
    case Ref(_, rest) => ScriptSpaceless(rest)
  }

  lemma ActionSpaceless(rules: Rules, text: seq<byte>, ptr: nat, t: Token)
    requires WholeChars(text) && t == ValueToken(rules.naming, text, ptr)
    ensures TokenAction(rules, text, ptr, t).Emit? ==> Spaceless(TokenAction(rules, text, ptr, t).pieces)
  {
    if t.kind == DataChars {
      assert text[ptr..ptr] == [];
      PastCharSpaceless(text, ptr, ptr);
      DataSpaceless(text, ptr, PastChar(text, ptr));
    }
  }

  lemma {:induction false} ScriptOfSpaceless(rules: Rules, text: seq<byte>, ptr: nat)
    requires WholeChars(text)
    ensures ScriptSpaceless(ScriptOf(rules, text, ptr))
    decreases |text| - ptr
  {
    var t := ValueToken(rules.naming, text, ptr);
    var a := TokenAction(rules, text, ptr, t);
    ActionSpaceless(rules, text, ptr, t);
    if !a.Halt? {
      ScriptOfSpaceless(rules, text, a.next);
    }
  }

  ghost predicate TableSpaceless(table: Table)
  {
    forall name <- table :: table[name].Content? ==> ScriptSpaceless(table[name].script)
  }

  lemma {:induction false} ExpandSpaceless(table: Table, open: set<EntityName>, s: Script)
    requires TableSpaceless(table) && ScriptSpaceless(s)
    ensures Spaceless(Expand(table, open, s).pieces)
    decreases Closed(table, open), s
  {
    match s {
      case End(_) =>
      case Add(_, rest) =>
        ExpandSpaceless(table, open, rest);
      case Ref(name, rest) =>
        if name !in open && name in table && table[name].Content? {
          FewerClosed(table, open, name);
          ExpandSpaceless(table, open + {name}, table[name].script);
          ExpandSpaceless(table, open, rest);
        }
    }
  }

  ghost predicate WholeRules(rules: Rules)
  {
    forall name <- rules.entities :: rules.entities[name].text.Some? ==> WholeChars(rules.entities[name].text.value)
  }

  lemma TableOfSpaceless(rules: Rules)
    requires WholeRules(rules)
    ensures TableSpaceless(TableOf(rules))
  {
    forall name | name in rules.entities && TableOf(rules)[name].Content?
      ensures ScriptSpaceless(TableOf(rules)[name].script)
    {
      ScriptOfSpaceless(rules, rules.entities[name].text.value, 0);
    }
  }

  /** The expansion of a value. */
  function ValueOf(rules: Rules, open: set<EntityName>, text: seq<byte>): Expansion
  {
    Expand(TableOf(rules), open, ScriptOf(rules, text, 0))
  }

  /** The value that is stored: without the last space when tokenized. */
  function Stored(isCdata: bool, pieces: seq<Piece>): seq<byte>
  {
    var v := Store(isCdata, [], pieces);
    if !isCdata && v != [] && v[|v| - 1] == SPACE then v[..|v| - 1] else v
  }

  /** Neither at the start nor at the end nor next to another one. */
  ghost predicate Tidy(v: seq<byte>)
  {
    SingleSpaced(v) && (v != [] ==> v[|v| - 1] != SPACE)
  }

  /** A tokenized value is stored without leading, trailing or repeated spaces. */
  lemma TokenizedIsTidy(rules: Rules, open: set<EntityName>, text: seq<byte>)
    requires WholeRules(rules) && WholeChars(text)
    ensures Tidy(Stored(false, ValueOf(rules, open, text).pieces))
  {
    TableOfSpaceless(rules);
    ScriptOfSpaceless(rules, text, 0);
    ExpandSpaceless(TableOf(rules), open, ScriptOf(rules, text, 0));
    StoreSingleSpaced([], ValueOf(rules, open, text).pieces);
  }

  lemma {:induction false} ScriptOfSensible(rules: Rules, text: seq<byte>, ptr: nat)
    ensures Sensible(ScriptOf(rules, text, ptr))
    decreases |text| - ptr
  {
    var a := TokenAction(rules, text, ptr, ValueToken(rules.naming, text, ptr));
    if !a.Halt? {
      ScriptOfSensible(rules, text, a.next);
    }
  }

  lemma TableOfSensible(rules: Rules)
    ensures SensibleTable(TableOf(rules))
  {
    forall name | name in rules.entities && rules.entities[name].text.Some?
      ensures Sensible(ScriptOf(rules, rules.entities[name].text.value, 0))
    {
      ScriptOfSensible(rules, rules.entities[name].text.value, 0);
    }
  }

  lemma AllClosed(rules: Rules)
    ensures Closed(TableOf(rules), {}) == |rules.entities.Keys|
  {
    var keys := TableOf(rules).Keys;
    assert forall name :: name in keys <==> name in rules.entities;
    assert keys == rules.entities.Keys && keys - {} == keys;
  }

  /**
   With no entity open at first, a value is refused as recursive exactly when expanding its references
   without the flags would go deeper than any bound; otherwise the flags change nothing.
   */
  lemma RecursiveValueIff(rules: Rules, text: seq<byte>)
    ensures ValueOf(rules, {}, text).error == RecursiveRef <==> Diverges(TableOf(rules), ScriptOf(rules, text, 0))
    ensures ValueOf(rules, {}, text).error != RecursiveRef ==>
              Unguarded(TableOf(rules), |rules.entities.Keys|, ScriptOf(rules, text, 0)) ==
                  Some(ValueOf(rules, {}, text))
  {
    TableOfSensible(rules);
    ScriptOfSensible(rules, text, 0);
    RecursiveIff(TableOf(rules), ScriptOf(rules, text, 0));
    if ValueOf(rules, {}, text).error != RecursiveRef {
      AllClosed(rules);
      GuardsUnneeded(TableOf(rules), |rules.entities.Keys|, ScriptOf(rules, text, 0));
    }
  }

  /** A text without references and line ends, whose spaces are plain and single and inside it. */
  predicate PlainAt(text: seq<byte>, i: nat)
    requires i < |text|
  {
    && text[i] != AMP && !IsLineEnd(text[i])
    && (IsS(text[i]) ==> 0 < i < |text| - 1 && text[i] == SPACE && text[i + 1] != SPACE)
  }

  ghost predicate Plain(text: seq<byte>)
  {
    forall i :: 0 <= i < |text| ==> PlainAt(text, i)
  }

  lemma {:induction false} PlainData(text: seq<byte>, ptr: nat)
    requires ptr <= |text| && LT !in text
    ensures DataFrom(text, ptr).kind == DataChars
    decreases |text| - ptr
  {
    if ptr < |text| && !EndsData(text[ptr]) {
      PlainData(text, PastChar(text, ptr));
    }
  }

  lemma {:induction false} PlainStores(rules: Rules, open: set<EntityName>, isCdata: bool, text: seq<byte>, ptr: nat)
    requires Plain(text) && LT !in text && ptr <= |text|
    ensures var e := Expand(TableOf(rules), open, ScriptOf(rules, text, ptr));
            e.error == NoError && Store(isCdata, text[..ptr], e.pieces) == text
    decreases |text| - ptr
  {
    if ptr == |text| {
      assert text[..ptr] == text;
    } else {
      assert PlainAt(text, ptr);
      var t := ValueToken(rules.naming, text, ptr);
      if IsS(text[ptr]) {
        assert PlainAt(text, ptr - 1);
        assert t == Token(ValueS, ptr + 1);
        assert text[..ptr + 1] == text[..ptr] + [SPACE];
      } else {
        PlainData(text, PastChar(text, ptr));
        assert t.kind == DataChars;
        assert text[..t.next] == text[..ptr] + text[ptr..t.next];
      }
      PlainPiece(rules, open, isCdata, text, ptr, t);
      PlainStores(rules, open, isCdata, text, t.next);
    }
  }

  lemma PlainPiece(rules: Rules, open: set<EntityName>, isCdata: bool, text: seq<byte>, ptr: nat, t: Token)
    requires ptr < |text| && t == ValueToken(rules.naming, text, ptr) && t.kind in {ValueS, DataChars}
    requires t.kind == ValueS ==> ptr > 0 && text[ptr] == SPACE != text[ptr - 1] && t.next == ptr + 1
    ensures var rest := Expand(TableOf(rules), open, ScriptOf(rules, text, t.next));
            var e := Expand(TableOf(rules), open, ScriptOf(rules, text, ptr));
            e.error == rest.error
                && Store(isCdata, text[..ptr], e.pieces) == Store(isCdata, text[..t.next], rest.pieces)
  {
    var piece := if t.kind == ValueS then Space else Raw(text[ptr..t.next]);
    var rest := Expand(TableOf(rules), open, ScriptOf(rules, text, t.next));
    assert text[..t.next] == text[..ptr] + text[ptr..t.next];
    assert t.kind == ValueS ==> text[ptr..t.next] == [SPACE];
    assert StorePiece(isCdata, text[..ptr], piece) == text[..t.next];
    assert ([piece] + rest.pieces)[1..] == rest.pieces;
  }

  /** The fast path: a plain value without less-than signs is stored byte for byte, tokenized or not. */
  lemma PlainIsStoredAsIs(rules: Rules, open: set<EntityName>, isCdata: bool, text: seq<byte>)
    requires Plain(text) && LT !in text
    ensures ValueOf(rules, open, text).error == NoError && Stored(isCdata, ValueOf(rules, open, text).pieces) == text
  {
    PlainStores(rules, open, isCdata, text, 0);
    assert text[..0] == [];
    assert text != [] ==> PlainAt(text, |text| - 1);
  }

  /** The text has been expanded up to ptr, giving the pieces done. */
  ghost predicate Progress(rules: Rules, open: set<EntityName>, text: seq<byte>, ptr: nat, done: seq<Piece>)
  {
    ValueOf(rules, open, text) ==
        Then(Expansion(NoError, done), Expand(TableOf(rules), open, ScriptOf(rules, text, ptr)))
  }

  lemma ProgressStart(rules: Rules, open: set<EntityName>, text: seq<byte>)
    ensures Progress(rules, open, text, 0, [])
  {
    assert [] + ValueOf(rules, open, text).pieces == ValueOf(rules, open, text).pieces;
  }

  lemma ProgressHalt(rules: Rules, open: set<EntityName>, text: seq<byte>, ptr: nat, done: seq<Piece>, error: Error)
    requires Progress(rules, open, text, ptr, done)
    requires TokenAction(rules, text, ptr, ValueToken(rules.naming, text, ptr)) == Halt(error)
    ensures ValueOf(rules, open, text) == Expansion(error, done)
  {
  }

  lemma ProgressEmit(rules: Rules, open: set<EntityName>, text: seq<byte>, ptr: nat, done: seq<Piece>, a: Action)
    requires Progress(rules, open, text, ptr, done)
    requires TokenAction(rules, text, ptr, ValueToken(rules.naming, text, ptr)) == a && a.Emit?
    ensures Progress(rules, open, text, a.next, done + a.pieces)
  {
    ThenTwo(done, a.pieces, Expand(TableOf(rules), open, ScriptOf(rules, text, a.next)));
  }

  lemma ThenTwo(a: seq<Piece>, b: seq<Piece>, rest: Expansion)
    ensures Then(Expansion(NoError, a), Then(Expansion(NoError, b), rest)) == Then(Expansion(NoError, a + b), rest)
  {
    assert a + (b + rest.pieces) == a + b + rest.pieces;
  }

  /** What a reference to a declared entity does when the flag of the entity is set, or when it has no text. */
  lemma ProgressRefused(rules: Rules, open: set<EntityName>, text: seq<byte>, ptr: nat, done: seq<Piece>, a: Action)
    requires Progress(rules, open, text, ptr, done)
    requires TokenAction(rules, text, ptr, ValueToken(rules.naming, text, ptr)) == a && a.Enter?
    ensures a.name in open ==> ValueOf(rules, open, text) == Expansion(RecursiveRef, done)
    ensures a.name !in open && BodyOf(rules, rules.entities[a.name]).Refused? ==>
              ValueOf(rules, open, text) == Expansion(BodyOf(rules, rules.entities[a.name]).error, done)
  {
  }

  lemma ProgressEnter(rules: Rules, open: set<EntityName>, text: seq<byte>, ptr: nat, done: seq<Piece>, a: Action,
                      inner: seq<byte>)
    requires Progress(rules, open, text, ptr, done)
    requires TokenAction(rules, text, ptr, ValueToken(rules.naming, text, ptr)) == a && a.Enter? && a.name !in open
    requires BodyOf(rules, rules.entities[a.name]) == Content(ScriptOf(rules, inner, 0))
    ensures var e := ValueOf(rules, open + {a.name}, inner);
            if e.error != NoError then ValueOf(rules, open, text) == Expansion(e.error, done + e.pieces)
            else Progress(rules, open, text, a.next, done + e.pieces)
  {
    var e := ValueOf(rules, open + {a.name}, inner);
    ThenTwo(done, e.pieces, Expand(TableOf(rules), open, ScriptOf(rules, text, a.next)));
  }

  class Entity {
    const declaration: Declaration
    var open: bool

    constructor (declaration: Declaration)
      ensures this.declaration == declaration && !open
    {
      this.declaration := declaration;
      open := false;
    }
  }

  class ValueStore {
    const naming: Naming
    const entities: map<EntityName, Entity>
    var pool: seq<byte>

    constructor (naming: Naming, entities: map<EntityName, Entity>)
      ensures this.naming == naming && this.entities == entities && pool == []
    {
      this.naming, this.entities := naming, entities;
      pool := [];
    }

    function RulesOf(checkDeclared: bool): (rules: Rules)
    {
      Rules(naming, map name | name in entities :: entities[name].declaration, checkDeclared)
    }

    ghost function Objects(): set<Entity>
    {
      set name | name in entities :: entities[name]
    }

    ghost predicate Distinct()
    {
      forall a, b :: a in entities && b in entities && entities[a] == entities[b] ==> a == b
    }

    /** Exactly the given entities are open. */
    ghost predicate Flags(open: set<EntityName>)
      reads Objects()
    {
      forall name :: name in entities ==> (entities[name].open <==> name in open)
    }

    /** The pieces done are in the pool, and are all there is when finished. */
    ghost predicate Outcome(isCdata: bool, checkDeclared: bool, text: seq<byte>, open: set<EntityName>,
                            before: seq<byte>,
                            finished: bool, error: Error, ptr: nat, done: seq<Piece>)
      reads this`pool
    {
      && pool == Store(isCdata, before, done)
      && if finished then ValueOf(RulesOf(checkDeclared), open, text) == Expansion(error, done)
         else Progress(RulesOf(checkDeclared), open, text, ptr, done)
    }

    /**
     Appends the expansion of a text to the pool. Whatever the outcome, the open flags are as before,
     and what was expanded before an error stays in the pool.
     */
    method Append(isCdata: bool, checkDeclared: bool, text: seq<byte>,
                  ghost open: set<EntityName>) returns (error: Error)
      requires Distinct() && Flags(open)
      modifies this`pool, Objects()
      ensures Flags(open)
      ensures var e := ValueOf(RulesOf(checkDeclared), open, text);
              error == e.error && pool == Store(isCdata, old(pool), e.pieces)
      decreases Closed(TableOf(RulesOf(checkDeclared)), open), 2
    {
      error := NoError;
      var finished, ptr: nat := false, 0;
      ghost var before, done: seq<Piece> := pool, [];
      ProgressStart(RulesOf(checkDeclared), open, text);
      while !finished
        invariant Flags(open) && ptr <= |text| && (!finished ==> error == NoError)
        invariant Outcome(isCdata, checkDeclared, text, open, before, finished, error, ptr, done)
        decreases !finished, |text| - ptr
      {
        finished, error, ptr, done := Advance(isCdata, checkDeclared, text, open, ptr, done, before);
      }
    }

    /** One token of the value. */
    method Advance(isCdata: bool, checkDeclared: bool, text: seq<byte>, ghost open: set<EntityName>, ptr: nat,
                   ghost done: seq<Piece>, ghost before: seq<byte>)
      returns (finished: bool, error: Error, next: nat, ghost more: seq<Piece>)
      requires Distinct() && Flags(open)
      requires Outcome(isCdata, checkDeclared, text, open, before, false, NoError, ptr, done)
      modifies this`pool, Objects()
      ensures Flags(open) && Outcome(isCdata, checkDeclared, text, open, before, finished, error, next, more)
      ensures next <= |text| && (finished || (error == NoError && ptr < next))
      decreases Closed(TableOf(RulesOf(checkDeclared)), open), 1
    {
      var rules := RulesOf(checkDeclared);
      var t := ScanValue(naming, text, ptr);
      var a := TokenAction(rules, text, ptr, t);
      next, more := |text|, done;
      match a {
        case Halt(halted) =>
          ProgressHalt(rules, open, text, ptr, done, halted);
          return true, halted, next, done;
        case Emit(pieces, _) =>
          ProgressEmit(rules, open, text, ptr, done, a);
          StoreTwo(isCdata, before, done, pieces);
          pool := Store(isCdata, pool, pieces);
          return false, NoError, a.next, done + pieces;
        case Enter(name, _) =>
          finished, error, more := AdvanceEntity(isCdata, checkDeclared, text, open, ptr, done, before, a);
          next := a.next;
      }
    }

    /** One reference to a declared entity. */
    method AdvanceEntity(isCdata: bool, checkDeclared: bool, text: seq<byte>, ghost open: set<EntityName>, ptr: nat,
                         ghost done: seq<Piece>, ghost before: seq<byte>, a: Action)
      returns (finished: bool, error: Error, ghost more: seq<Piece>)
      requires Distinct() && Flags(open)
      requires Outcome(isCdata, checkDeclared, text, open, before, false, NoError, ptr, done)
      requires a == TokenAction(RulesOf(checkDeclared), text, ptr, ValueToken(naming, text, ptr)) && a.Enter?
      modifies this`pool, Objects()
      ensures Flags(open) && Outcome(isCdata, checkDeclared, text, open, before, finished, error, a.next, more)
      ensures finished || error == NoError
      decreases Closed(TableOf(RulesOf(checkDeclared)), open), 1, 0
    {
      ghost var rules := RulesOf(checkDeclared);
      var entity := entities[a.name];
      ProgressRefused(rules, open, text, ptr, done, a);
      if entity.open {
        return true, RecursiveRef, done;
      }
      if entity.declaration.hasNotation {
        return true, BinaryRef, done;
      }
      if entity.declaration.text.None? {
        return true, ExternalRef, done;
      }
      ProgressEnter(rules, open, text, ptr, done, a, entity.declaration.text.value);
      ghost var e := ValueOf(rules, open + {a.name}, entity.declaration.text.value);
      StoreTwo(isCdata, before, done, e.pieces);
      error := AppendEntity(isCdata, checkDeclared, a.name, open);
      return error != NoError, error, done + e.pieces;
    }

    /** Appends the text of an entity, with its flag set meanwhile. */
    method AppendEntity(isCdata: bool, checkDeclared: bool, name: EntityName, ghost open: set<EntityName>)
      returns (error: Error)
      requires Distinct() && Flags(open) && name in entities && name !in open
      requires entities[name].declaration.text.Some?
      modifies this`pool, Objects()
      ensures Flags(open)
      ensures var e := ValueOf(RulesOf(checkDeclared), open + {name}, entities[name].declaration.text.value);
              error == e.error && pool == Store(isCdata, old(pool), e.pieces)
      decreases Closed(TableOf(RulesOf(checkDeclared)), open), 0
    {
      var entity := entities[name];
      entity.open := true;
      FewerClosed(TableOf(RulesOf(checkDeclared)), open, name);
      error := Append(isCdata, checkDeclared, entity.declaration.text.value, open + {name});
      entity.open := false;
    }

    /** Stores a value in an empty pool. */
    method StoreValue(isCdata: bool, caller: Caller, text: seq<byte>,
                      ghost open: set<EntityName>) returns (error: Error)
      requires Distinct() && Flags(open) && pool == []
      modifies this`pool, Objects()
      ensures Flags(open) && error == ValueOf(RulesOf(caller.ChecksDeclared()), open, text).error
      ensures error == NoError ==> pool == Stored(isCdata, ValueOf(RulesOf(caller.ChecksDeclared()), open, text).pieces)
    {
      error := Append(isCdata, caller.ChecksDeclared(), text, open);
      if error != NoError {
        return;
      }
      if !isCdata && pool != [] && pool[|pool| - 1] == SPACE {
        pool := pool[..|pool| - 1];
      }
    }
  }
}
