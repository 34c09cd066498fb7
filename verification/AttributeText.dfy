/** What an attribute value says, told from its text: characters, white space, line ends and references. */
module AttributeTexts {
  import opened ByteTexts
  import opened Wrappers
  import opened Bytes
  import opened XmlBytes
  import opened XmlChars
  import opened AttributeTokens
  import opened EntityExpansion
  import opened AttributeValues

  /** A hexadecimal digit, with the case of its letter. */
  datatype HexDigit = HexDigit(value: nat, upper: bool)

  /** The entities that need no declaration. */
  datatype Five = Lt | Gt | Amp | Quot | Apos

  function NameOf(five: Five): EntityName
  {
    match five
    case Lt => [0x6C, 0x74]
    case Gt => [0x67, 0x74]
    case Amp => [0x61, 0x6D, 0x70]
    case Quot => [0x71, 0x75, 0x6F, 0x74]
    case Apos => [0x61, 0x70, 0x6F, 0x73]
  }

  function Meant(five: Five): byte
  {
    match five
    case Lt => 0x3C
    case Gt => 0x3E
    case Amp => 0x26
    case Quot => 0x22
    case Apos => 0x27
  }

  /** What the text of a value consists of. */
  datatype Part =
    | Ch(c: CharNumber) | Blank | Tab | CrLf | LoneCr | LoneLf | LessThan
    | DecimalRef(decimals: seq<nat>) | HexRef(hexes: seq<HexDigit>)
    | Named(five: Five)
    | EntityOf(name: EntityName)

  function DecimalByte(d: nat): byte
  {
    if d < 10 then 0x30 + d else 0
  }

  function DecimalText(digits: seq<nat>): seq<byte>
  {
    seq(|digits|, k requires 0 <= k < |digits| => DecimalByte(digits[k]))
  }

  function HexByte(d: HexDigit): byte
  {
    if d.value < 10 then 0x30 + d.value
    else if d.value < 16 then (if d.upper then 0x41 else 0x61) + (d.value - 10)
    else 0
  }

  function HexText(digits: seq<HexDigit>): seq<byte>
  {
    seq(|digits|, k requires 0 <= k < |digits| => HexByte(digits[k]))
  }

  /** How a part is written. */
  function PartBytes(part: Part): (s: seq<byte>)
    ensures s != []
  {
    match part
    case Ch(c) => Utf8(c)
    case Blank => [0x20]
    case Tab => [9]
    case CrLf => [0x0D, 0x0A]
    case LoneCr => [0x0D]
    case LoneLf => [0x0A]
    case LessThan => [0x3C]
    case DecimalRef(digits) => [0x26, 0x23] + DecimalText(digits) + [0x3B]
    case HexRef(digits) => [0x26, 0x23, 0x78] + HexText(digits) + [0x3B]
    case Named(five) => [0x26] + NameOf(five) + [0x3B]
    case EntityOf(name) => [0x26] + name + [0x3B]
  }

  function Spelled(parts: seq<Part>): seq<byte>
  {
    if parts == [] then [] else PartBytes(parts[0]) + Spelled(parts[1..])
  }

  /** Letters and the underscore. */
  predicate StartsName(b: byte)
  {
    0x41 <= b <= 0x5A || b == 0x5F || 0x61 <= b <= 0x7A
  }

  /** Also digits, the hyphen and the full stop. */
  predicate InName(b: byte)
  {
    StartsName(b) || 0x30 <= b <= 0x39 || b == 0x2D || b == 0x2E
  }

  /** The characters of a name behind the first. */
  predicate NameTail(naming: Naming, s: seq<byte>)
  {
    s != [] ==>
      var n := Announced(s[0]);
      n <= |s| && (if n == 1 then InName(s[0]) else naming.isName(s[..n])) && NameTail(naming, s[n..])
  }

  predicate IsName(naming: Naming, s: seq<byte>)
  {
    && s != [] && Announced(s[0]) <= |s|
    && (if Announced(s[0]) == 1 then StartsName(s[0]) else naming.isNmstrt(s[..Announced(s[0])]))
    && NameTail(naming, s[Announced(s[0])..])
  }

  predicate IsPredefined(name: EntityName)
  {
    name in [NameOf(Lt), NameOf(Gt), NameOf(Amp), NameOf(Quot), NameOf(Apos)]
  }

  predicate ProperPart(naming: Naming, part: Part)
  {
    match part
    case Ch(c) => c !in {9, 0x0A, 0x0D, 0x20, 0x26, 0x3C}
    case DecimalRef(digits) => digits != [] && forall k :: 0 <= k < |digits| ==> digits[k] < 10
    case HexRef(digits) => digits != [] && forall k :: 0 <= k < |digits| ==> digits[k].value < 16
    case EntityOf(name) => IsName(naming, name) && !IsPredefined(name)
    case _ => true
  }

  /** A carriage return and the line feed behind it are one line end. */
  predicate Proper(naming: Naming, parts: seq<Part>)
  {
    parts != [] ==>
      && ProperPart(naming, parts[0]) && Proper(naming, parts[1..])
      && !(parts[0].LoneCr? && |parts| > 1 && parts[1].LoneLf?)
  }

  /** The number that digits to a base stand for. */
  function ValueOfDigits(digits: seq<nat>, base: nat): nat
  {
    if digits == [] then 0 else ValueOfDigits(digits[..|digits| - 1], base) * base + digits[|digits| - 1]
  }

  function HexValues(digits: seq<HexDigit>): seq<nat>
  {
    seq(|digits|, k requires 0 <= k < |digits| => digits[k].value)
  }

  /** A reference by number stands for the character; what is none is an error. */
  function SayNumber(v: nat): Expansion
  {
    if !XmlChar(v) then Expansion(BadCharRef, [])
    else if v == 0x20 then Expansion(NoError, [Space])
    else Expansion(NoError, [Raw(Utf8(v))])
  }

  /** A reference to an entity stands for what the text of its declaration says. */
  function SayEntity(rules: Rules, open: set<EntityName>, name: EntityName): Expansion
  {
    if name !in rules.entities then Expansion(if rules.checkDeclared then UndefinedEntity else NoError, [])
    else
      var d := rules.entities[name];
      if rules.checkDeclared && !d.isInternal then Expansion(DeclaredInPe, [])
      else if name in open then Expansion(RecursiveRef, [])
      else if d.hasNotation then Expansion(BinaryRef, [])
      else if d.text.None? then Expansion(ExternalRef, [])
      else ValueOf(rules, open + {name}, d.text.value)
  }

  /** What a part stands for: a white space character and each line end are one space. */
  function Say(rules: Rules, open: set<EntityName>, part: Part): Expansion
  {
    match part
    case Ch(c) => Expansion(NoError, [Raw(Utf8(c))])
    case LessThan => Expansion(InvalidToken, [])
    case DecimalRef(digits) => SayNumber(ValueOfDigits(digits, 10))
    case HexRef(digits) => SayNumber(ValueOfDigits(HexValues(digits), 16))
    case Named(five) => Expansion(NoError, [Raw([Meant(five)])])
    case EntityOf(name) => SayEntity(rules, open, name)
    case _ => Expansion(NoError, [Space])
  }

  /** The parts say what they stand for one after the other, up to the first error. */
  function SayAll(rules: Rules, open: set<EntityName>, parts: seq<Part>): Expansion
  {
    if parts == [] then Expansion(NoError, []) else Then(Say(rules, open, parts[0]), SayAll(rules, open, parts[1..]))
  }

  /** What the rest of a text says, from ptr on. */
  function Rest(rules: Rules, open: set<EntityName>, text: seq<byte>, ptr: nat): Expansion
  {
    Expand(TableOf(rules), open, ScriptOf(rules, text, ptr))
  }

  /** The bytes and spaces that pieces bring, however they are cut. */
  function Marks(pieces: seq<Piece>): seq<Option<byte>>
  {
    if pieces == [] then [] else PieceMarks(pieces[0]) + Marks(pieces[1..])
  }

  function PieceMarks(piece: Piece): seq<Option<byte>>
  {
    match piece
    case Raw(bytes) => seq(|bytes|, k requires 0 <= k < |bytes| => Some(bytes[k]))
    case Space => [None]
  }

  /** The same error, or else the same bytes and spaces. */
  predicate Alike(a: Expansion, b: Expansion)
  {
    a.error == b.error && (a.error == NoError ==> Marks(a.pieces) == Marks(b.pieces))
  }

  lemma {:induction false} MarksTwo(a: seq<Piece>, b: seq<Piece>)
    ensures Marks(a + b) == Marks(a) + Marks(b)
    decreases a
  {
    if a == [] {
      assert a + b == b;
    } else {
      assert (a + b)[1..] == a[1..] + b;
      MarksTwo(a[1..], b);
    }
  }

  lemma ThenAlike(first: Expansion, a: Expansion, b: Expansion)
    requires Alike(a, b)
    ensures Alike(Then(first, a), Then(first, b))
  {
    MarksTwo(first.pieces, a.pieces);
    MarksTwo(first.pieces, b.pieces);
  }

  lemma RestEmits(rules: Rules, open: set<EntityName>, text: seq<byte>, ptr: nat, pieces: seq<Piece>, next: nat)
    requires TokenAction(rules, text, ptr, ValueToken(rules.naming, text, ptr)) == Emit(pieces, next)
    ensures Rest(rules, open, text, ptr) == Then(Expansion(NoError, pieces), Rest(rules, open, text, next))
  {
  }

  lemma RestHalts(rules: Rules, open: set<EntityName>, text: seq<byte>, ptr: nat, error: Error)
    requires TokenAction(rules, text, ptr, ValueToken(rules.naming, text, ptr)) == Halt(error)
    ensures Rest(rules, open, text, ptr) == Expansion(error, [])
  {
  }

  lemma RestEnters(rules: Rules, open: set<EntityName>, text: seq<byte>, ptr: nat, name: EntityName, next: nat)
    requires TokenAction(rules, text, ptr, ValueToken(rules.naming, text, ptr)) == Enter(name, next)
    requires rules.checkDeclared ==> rules.entities[name].isInternal
    ensures Rest(rules, open, text, ptr) == Then(SayEntity(rules, open, name), Rest(rules, open, text, next))
  {
  }

  /** A character of the text that ends no run of data. */
  lemma PastSpelled(text: seq<byte>, ptr: nat, c: CharNumber)
    requires At(text, ptr, Utf8(c)) && c !in {9, 0x0A, 0x0D, 0x20, 0x26, 0x3C}
    ensures ptr < |text| && !EndsData(text[ptr]) && PastChar(text, ptr) == ptr + |Utf8(c)|
  {
    AtFirst(text, ptr, Utf8(c));
  }

  /** A character is taken alone, though the tokenizer takes the whole run. */
  lemma SaysChar(rules: Rules, open: set<EntityName>, text: seq<byte>, ptr: nat, c: CharNumber, q: nat)
    requires At(text, ptr, Utf8(c)) && c !in {9, 0x0A, 0x0D, 0x20, 0x26, 0x3C} && q == ptr + |Utf8(c)|
    ensures Alike(Rest(rules, open, text, ptr),
                  Then(Expansion(NoError, [Raw(Utf8(c))]), Rest(rules, open, text, q)))
  {
    PastSpelled(text, ptr, c);
    AtSlice(text, ptr, Utf8(c));
    var t := DataFrom(text, q);
    if t.kind == Invalid {
      RestHalts(rules, open, text, ptr, InvalidToken);
      assert ValueToken(rules.naming, text, q).kind == Invalid;
      RestHalts(rules, open, text, q, InvalidToken);
    } else {
      RestEmits(rules, open, text, ptr, [Raw(text[ptr..t.next])], t.next);
      if q < |text| && !EndsData(text[q]) {
        RestEmits(rules, open, text, q, [Raw(text[q..t.next])], t.next);
        OneRun(text, ptr, q, t.next, Rest(rules, open, text, t.next));
      }
    }
  }

  lemma OneRun(text: seq<byte>, i: nat, j: nat, k: nat, rest: Expansion)
    requires i <= j <= k <= |text|
    ensures Alike(Then(Expansion(NoError, [Raw(text[i..k])]), rest),
                  Then(Expansion(NoError, [Raw(text[i..j])]), Then(Expansion(NoError, [Raw(text[j..k])]), rest)))
  {
    var a, b, c := [Raw(text[i..k])], [Raw(text[i..j])], [Raw(text[j..k])];
    MarksTwo(a, rest.pieces);
    MarksTwo(b, c + rest.pieces);
    MarksTwo(c, rest.pieces);
    assert PieceMarks(a[0]) == PieceMarks(b[0]) + PieceMarks(c[0]);
    assert a[1..] == b[1..] == c[1..] == [];
  }

  lemma {:induction false} DigitsEnd(text: seq<byte>, ptr: nat, e: nat, hex: bool)
    requires ptr <= e < |text| && text[e] == SEMI && forall i :: ptr <= i < e ==> IsDigit(text[i], hex)
    ensures DigitsFrom(text, ptr, hex) == Token(CharRef, e + 1)
    decreases e - ptr
  {
    if ptr < e {
      DigitsEnd(text, ptr + 1, e, hex);
    }
  }

  lemma {:induction false} DecimalPlaces(digits: seq<nat>)
    requires forall k :: 0 <= k < |digits| ==> digits[k] < 10
    ensures PlaceValue(DecimalText(digits), false) == ValueOfDigits(digits, 10)
  {
    if digits != [] {
      var front := digits[..|digits| - 1];
      DecimalPlaces(front);
      assert DecimalText(digits)[..|digits| - 1] == DecimalText(front);
    }
  }

  lemma {:induction false} HexPlaces(digits: seq<HexDigit>)
    requires forall k :: 0 <= k < |digits| ==> digits[k].value < 16
    ensures PlaceValue(HexText(digits), true) == ValueOfDigits(HexValues(digits), 16)
  {
    if digits != [] {
      var n := |digits| - 1;
      var front := digits[..n];
      HexPlaces(front);
      assert HexText(digits)[..n] == HexText(front) && HexValues(digits)[..n] == HexValues(front);
      assert DigitValue(HexByte(digits[n])) == digits[n].value;
    }
  }

  /** The token of a reference by number, and the number it holds. */
  lemma NumberToken(text: seq<byte>, ptr: nat, start: nat, digits: seq<byte>, e: nat, hex: bool)
    requires digits != [] && start == (if hex then ptr + 3 else ptr + 2) && e == start + |digits|
    requires At(text, ptr, [0x26, 0x23]) && (hex ==> ptr + 2 < |text| && text[ptr + 2] == 0x78)
    requires At(text, start, digits) && At(text, e, [0x3B])
    requires forall k :: 0 <= k < |digits| ==> IsDigit(digits[k], hex)
    ensures CharRefToken(text, ptr + 2) == Token(CharRef, e + 1)
    ensures CharRefNumber(text, ptr) == CharOf(PlaceValue(digits, hex))
  {
    AtSlice(text, start, digits);
    AtFirst(text, start, digits);
    AtFirst(text, e, [0x3B]);
    forall i | start <= i < e
      ensures IsDigit(text[i], hex)
    {
      assert text[i] == text[start..e][i - start];
    }
    DigitsEnd(text, start + 1, e, hex);
    CharRefSpells(text, ptr, e);
  }

  lemma SaysNumber(rules: Rules, open: set<EntityName>, text: seq<byte>, ptr: nat, v: nat, next: nat)
    requires At(text, ptr, [0x26, 0x23]) && CharRefToken(text, ptr + 2) == Token(CharRef, next)
    requires CharRefNumber(text, ptr) == CharOf(v)
    ensures Rest(rules, open, text, ptr) == Then(SayNumber(v), Rest(rules, open, text, next))
  {
    AtFirst(text, ptr, [0x26, 0x23]);
    CharOfIff(v);
    if XmlChar(v) {
      RestEmits(rules, open, text, ptr, SayNumber(v).pieces, next);
    } else {
      RestHalts(rules, open, text, ptr, BadCharRef);
    }
  }

  /** The name of a reference up to its semicolon. */
  lemma {:induction false} NameEnds(naming: Naming, text: seq<byte>, ptr: nat, s: seq<byte>, end: nat, next: nat)
    requires NameTail(naming, s) && At(text, ptr, s) && end == ptr + |s| && At(text, end, [0x3B]) && next == end + 1
    ensures NameFrom(naming, text, ptr) == Token(EntityRef, next)
    decreases |s|
  {
    if s == [] {
      AtFirst(text, ptr, [0x3B]);
    } else {
      var n := Announced(s[0]);
      AtSplit(text, ptr, s, n);
      AtFirst(text, ptr, s);
      NameEnds(naming, text, ptr + n, s[n..], end, next);
    }
  }

  lemma NameStarts(naming: Naming, text: seq<byte>, ptr: nat, s: seq<byte>, next: nat)
    requires IsName(naming, s) && At(text, ptr, [0x26]) && At(text, ptr + 1, s) && next == ptr + 1 + Announced(s[0])
    ensures ValueToken(naming, text, ptr) == NameFrom(naming, text, next)
    ensures At(text, next, s[Announced(s[0])..]) && NameTail(naming, s[Announced(s[0])..])
  {
    AtFirst(text, ptr, [0x26]);
    AtSplit(text, ptr + 1, s, Announced(s[0]));
    AtFirst(text, ptr + 1, s);
  }

  lemma NameToken(naming: Naming, text: seq<byte>, ptr: nat, s: seq<byte>, next: nat)
    requires IsName(naming, s) && At(text, ptr, [0x26] + s + [0x3B]) && next == ptr + |s| + 2
    ensures ValueToken(naming, text, ptr) == Token(EntityRef, next)
    ensures next <= |text| && text[ptr + 1..next - 1] == s
  {
    var n := Announced(s[0]);
    AtBoth(text, ptr, [0x26] + s, next - 1, [0x3B]);
    AtBoth(text, ptr, [0x26], ptr + 1, s);
    NameStarts(naming, text, ptr, s, ptr + 1 + n);
    NameEnds(naming, text, ptr + 1 + n, s[n..], next - 1, next);
    AtSlice(text, ptr + 1, s);
  }

  lemma NameAction(rules: Rules, text: seq<byte>, ptr: nat, name: EntityName, next: nat)
    requires ValueToken(rules.naming, text, ptr) == Token(EntityRef, next)
    requires ptr + 1 < next <= |text| && text[ptr + 1..next - 1] == name
    ensures TokenAction(rules, text, ptr, ValueToken(rules.naming, text, ptr)) == ReferenceAction(rules, name, next)
  {
  }

  lemma SaysName(rules: Rules, open: set<EntityName>, text: seq<byte>, ptr: nat, name: EntityName, next: nat)
    requires IsName(rules.naming, name) && At(text, ptr, [0x26] + name + [0x3B]) && next == ptr + |name| + 2
    ensures Rest(rules, open, text, ptr) == Then(SayName(rules, open, name), Rest(rules, open, text, next))
  {
    NameToken(rules.naming, text, ptr, name, next);
    NameAction(rules, text, ptr, name, next);
    NameActs(rules, open, text, ptr, name, next);
  }

  function SayName(rules: Rules, open: set<EntityName>, name: EntityName): Expansion
  {
    match Predefined(name)
    case Some(ch) => Expansion(NoError, [Raw([ch])])
    case None => SayEntity(rules, open, name)
  }

  lemma NameActs(rules: Rules, open: set<EntityName>, text: seq<byte>, ptr: nat, name: EntityName, next: nat)
    requires TokenAction(rules, text, ptr, ValueToken(rules.naming, text, ptr)) == ReferenceAction(rules, name, next)
    ensures Rest(rules, open, text, ptr) == Then(SayName(rules, open, name), Rest(rules, open, text, next))
  {
    match ReferenceAction(rules, name, next) {
      case Halt(error) => RestHalts(rules, open, text, ptr, error);
      case Emit(pieces, _) => RestEmits(rules, open, text, ptr, pieces, next);
      case Enter(_, _) => RestEnters(rules, open, text, ptr, name, next);
    }
  }

  /** The names of the predefined entities are names, and no other name is predefined. */
  lemma FiveNames(naming: Naming, name: EntityName, five: Five)
    ensures IsName(naming, NameOf(five)) && Predefined(NameOf(five)) == Some(Meant(five))
    ensures !IsPredefined(name) ==> Predefined(name) == None
  {
    Letters(naming, NameOf(five));
  }

  lemma {:induction false} Letters(naming: Naming, s: seq<byte>)
    requires s != [] && forall k :: 0 <= k < |s| ==> 0x61 <= s[k] <= 0x7A
    ensures IsName(naming, s) && NameTail(naming, s)
  {
    if |s| > 1 {
      Letters(naming, s[1..]);
    }
  }

  /** A part stands at ptr and ends at next. */
  ghost predicate PartAt(naming: Naming, text: seq<byte>, ptr: nat, part: Part, next: nat)
  {
    && ProperPart(naming, part) && At(text, ptr, PartBytes(part)) && next == ptr + |PartBytes(part)|
    && (part.LoneCr? && next < |text| ==> text[next] != 0x0A)
  }

  /** What the text says from a part on. */
  ghost predicate Says(rules: Rules, open: set<EntityName>, text: seq<byte>, ptr: nat, part: Part, next: nat)
  {
    Rest(rules, open, text, ptr) == Then(Say(rules, open, part), Rest(rules, open, text, next))
  }

  lemma WhiteSays(rules: Rules, open: set<EntityName>, text: seq<byte>, ptr: nat, part: Part, next: nat)
    requires part in {Blank, Tab, CrLf, LoneCr, LoneLf, LessThan} && PartAt(rules.naming, text, ptr, part, next)
    ensures Says(rules, open, text, ptr, part, next)
  {
    AtFirst(text, ptr, PartBytes(part));
    if part.LessThan? {
      RestHalts(rules, open, text, ptr, InvalidToken);
    } else {
      RestEmits(rules, open, text, ptr, [Space], next);
    }
  }

  lemma EntitySays(rules: Rules, open: set<EntityName>, text: seq<byte>, ptr: nat, part: Part, next: nat)
    requires part.EntityOf? && PartAt(rules.naming, text, ptr, part, next)
    ensures Says(rules, open, text, ptr, part, next)
  {
    FiveNames(rules.naming, part.name, Lt);
    SaysName(rules, open, text, ptr, part.name, next);
  }

  lemma NamedSays(rules: Rules, open: set<EntityName>, text: seq<byte>, ptr: nat, part: Part, next: nat)
    requires part.Named? && PartAt(rules.naming, text, ptr, part, next)
    ensures Says(rules, open, text, ptr, part, next)
  {
    FiveNames(rules.naming, [], part.five);
    SaysName(rules, open, text, ptr, NameOf(part.five), next);
  }

  lemma DecimalParts(text: seq<byte>, ptr: nat, s: seq<byte>, end: nat)
    requires At(text, ptr, [0x26, 0x23] + s + [0x3B]) && end == ptr + 2 + |s|
    ensures At(text, ptr, [0x26, 0x23]) && At(text, ptr + 2, s) && At(text, end, [0x3B])
  {
    AtBoth(text, ptr, [0x26, 0x23] + s, end, [0x3B]);
    AtBoth(text, ptr, [0x26, 0x23], ptr + 2, s);
  }

  lemma DecimalTaken(naming: Naming, text: seq<byte>, ptr: nat, part: Part, next: nat)
    requires part.DecimalRef? && PartAt(naming, text, ptr, part, next)
    ensures At(text, ptr, [0x26, 0x23]) && CharRefToken(text, ptr + 2) == Token(CharRef, next)
    ensures CharRefNumber(text, ptr) == CharOf(ValueOfDigits(part.decimals, 10))
  {
    var s := DecimalText(part.decimals);
    DecimalParts(text, ptr, s, next - 1);
    NumberToken(text, ptr, ptr + 2, s, next - 1, false);
    DecimalPlaces(part.decimals);
  }

  lemma HexParts(text: seq<byte>, ptr: nat, s: seq<byte>, end: nat)
    requires At(text, ptr, [0x26, 0x23, 0x78] + s + [0x3B]) && end == ptr + 3 + |s|
    ensures At(text, ptr, [0x26, 0x23]) && ptr + 2 < |text| && text[ptr + 2] == 0x78
    ensures At(text, ptr + 3, s) && At(text, end, [0x3B])
  {
    AtBoth(text, ptr, [0x26, 0x23, 0x78] + s, end, [0x3B]);
    AtBoth(text, ptr, [0x26, 0x23, 0x78], ptr + 3, s);
    assert [0x26, 0x23, 0x78] == [0x26, 0x23] + [0x78];
    AtBoth(text, ptr, [0x26, 0x23], ptr + 2, [0x78]);
    AtFirst(text, ptr, [0x26, 0x23, 0x78]);
  }

  lemma HexTaken(naming: Naming, text: seq<byte>, ptr: nat, part: Part, next: nat)
    requires part.HexRef? && PartAt(naming, text, ptr, part, next)
    ensures At(text, ptr, [0x26, 0x23]) && CharRefToken(text, ptr + 2) == Token(CharRef, next)
    ensures CharRefNumber(text, ptr) == CharOf(ValueOfDigits(HexValues(part.hexes), 16))
  {
    var s := HexText(part.hexes);
    HexParts(text, ptr, s, next - 1);
    NumberToken(text, ptr, ptr + 3, s, next - 1, true);
    HexPlaces(part.hexes);
  }

  lemma NumberSays(rules: Rules, open: set<EntityName>, text: seq<byte>, ptr: nat, part: Part, next: nat)
    requires (part.DecimalRef? || part.HexRef?) && PartAt(rules.naming, text, ptr, part, next)
    ensures Says(rules, open, text, ptr, part, next)
  {
    if part.DecimalRef? {
      DecimalTaken(rules.naming, text, ptr, part, next);
      SaysNumber(rules, open, text, ptr, ValueOfDigits(part.decimals, 10), next);
    } else {
      HexTaken(rules.naming, text, ptr, part, next);
      SaysNumber(rules, open, text, ptr, ValueOfDigits(HexValues(part.hexes), 16), next);
    }
  }

  /** What a part that is no plain character says, before what the rest says. */
  lemma PartSays(rules: Rules, open: set<EntityName>, text: seq<byte>, ptr: nat, part: Part, next: nat)
    requires !part.Ch? && PartAt(rules.naming, text, ptr, part, next)
    ensures Says(rules, open, text, ptr, part, next)
  {
    match part {
      case DecimalRef(_) => NumberSays(rules, open, text, ptr, part, next);
      case HexRef(_) => NumberSays(rules, open, text, ptr, part, next);
      case EntityOf(_) => EntitySays(rules, open, text, ptr, part, next);
      case Named(_) => NamedSays(rules, open, text, ptr, part, next);
      case _ => WhiteSays(rules, open, text, ptr, part, next);
    }
  }

  lemma SpelledFirst(text: seq<byte>, ptr: nat, parts: seq<Part>, next: nat)
    requires parts != [] && At(text, ptr, Spelled(parts)) && next == ptr + |PartBytes(parts[0])|
    ensures At(text, ptr, PartBytes(parts[0])) && At(text, next, Spelled(parts[1..]))
    ensures next + |Spelled(parts[1..])| == ptr + |Spelled(parts)|
  {
    AtBoth(text, ptr, PartBytes(parts[0]), next, Spelled(parts[1..]));
  }

  /** A text says what its parts stand for, one after the other, up to the first error. */
  lemma {:induction false} TextSays(rules: Rules, open: set<EntityName>, text: seq<byte>, ptr: nat, parts: seq<Part>)
    requires Proper(rules.naming, parts) && At(text, ptr, Spelled(parts)) && ptr + |Spelled(parts)| == |text|
    ensures Alike(Rest(rules, open, text, ptr), SayAll(rules, open, parts))
    decreases parts
  {
    if parts == [] {
      RestHalts(rules, open, text, ptr, NoError);
    } else {
      var next := ptr + |PartBytes(parts[0])|;
      FirstPart(rules.naming, text, ptr, parts, next);
      TextSays(rules, open, text, next, parts[1..]);
      TextStep(rules, open, text, ptr, parts, next);
    }
  }

  lemma TextStep(rules: Rules, open: set<EntityName>, text: seq<byte>, ptr: nat, parts: seq<Part>, next: nat)
    requires parts != [] && PartAt(rules.naming, text, ptr, parts[0], next)
    requires Alike(Rest(rules, open, text, next), SayAll(rules, open, parts[1..]))
    ensures Alike(Rest(rules, open, text, ptr), SayAll(rules, open, parts))
  {
    SaysPart(rules, open, text, ptr, parts[0], next);
    ThenAlike(Say(rules, open, parts[0]), Rest(rules, open, text, next), SayAll(rules, open, parts[1..]));
  }

  lemma SaysPart(rules: Rules, open: set<EntityName>, text: seq<byte>, ptr: nat, part: Part, next: nat)
    requires PartAt(rules.naming, text, ptr, part, next)
    ensures Alike(Rest(rules, open, text, ptr), Then(Say(rules, open, part), Rest(rules, open, text, next)))
  {
    if part.Ch? {
      CharSays(rules, open, text, ptr, part, next);
    } else {
      PartSays(rules, open, text, ptr, part, next);
    }
  }

  lemma CharSays(rules: Rules, open: set<EntityName>, text: seq<byte>, ptr: nat, part: Part, next: nat)
    requires part.Ch? && PartAt(rules.naming, text, ptr, part, next)
    ensures Alike(Rest(rules, open, text, ptr), Then(Say(rules, open, part), Rest(rules, open, text, next)))
  {
    SaysChar(rules, open, text, ptr, part.c, next);
  }

  lemma FirstPart(naming: Naming, text: seq<byte>, ptr: nat, parts: seq<Part>, next: nat)
    requires Proper(naming, parts) && At(text, ptr, Spelled(parts)) && ptr + |Spelled(parts)| == |text|
    requires parts != [] && next == ptr + |PartBytes(parts[0])|
    ensures PartAt(naming, text, ptr, parts[0], next)
    ensures At(text, next, Spelled(parts[1..])) && next + |Spelled(parts[1..])| == |text|
  {
    SpelledFirst(text, ptr, parts, next);
    if parts[0].LoneCr? && next < |text| {
      NextByte(naming, text, next, parts[1..]);
    }
  }

  /** Only a lone line feed starts with one. */
  lemma NextByte(naming: Naming, text: seq<byte>, ptr: nat, parts: seq<Part>)
    requires Proper(naming, parts) && At(text, ptr, Spelled(parts)) && ptr + |Spelled(parts)| == |text| && ptr < |text|
    ensures parts != [] && (text[ptr] == 0x0A <==> parts[0].LoneLf?)
  {
    SpelledFirst(text, ptr, parts, ptr + |PartBytes(parts[0])|);
    AtFirst(text, ptr, PartBytes(parts[0]));
  }

  /** The value of an attribute says what its parts stand for. */
  lemma ValueSays(rules: Rules, open: set<EntityName>, parts: seq<Part>)
    requires Proper(rules.naming, parts)
    ensures Alike(ValueOf(rules, open, Spelled(parts)), SayAll(rules, open, parts))
  {
    TextSays(rules, open, Spelled(parts), 0, parts);
  }

  lemma {:induction false} DigitsFound(text: seq<byte>, ptr: nat, hex: bool, next: nat)
    requires DigitsFrom(text, ptr, hex) == Token(CharRef, next)
    ensures ptr < next <= |text| && text[next - 1] == 0x3B
    ensures forall i :: ptr <= i < next - 1 ==> IsDigit(text[i], hex)
    decreases |text| - ptr
  {
    if IsDigit(text[ptr], hex) {
      DigitsFound(text, ptr + 1, hex, next);
    }
  }

  lemma {:induction false} NameFound(naming: Naming, text: seq<byte>, ptr: nat, next: nat)
    requires NameFrom(naming, text, ptr) == Token(EntityRef, next)
    ensures ptr < next <= |text| && text[next - 1] == 0x3B && NameTail(naming, text[ptr..next - 1])
    decreases |text| - ptr
  {
    var step := NameStep(naming, text, ptr);
    if step.Advance? {
      NameFound(naming, text, ptr + step.n, next);
      var s := text[ptr..next - 1];
      assert s[step.n..] == text[ptr + step.n..next - 1] && s[..step.n] == text[ptr..ptr + step.n];
    } else {
      assert text[ptr..next - 1] == [];
    }
  }

  function DecimalsOf(s: seq<byte>): seq<nat>
  {
    seq(|s|, k requires 0 <= k < |s| => DigitValue(s[k]))
  }

  function HexOf(b: byte): HexDigit
    requires IsDigit(b, true)
  {
    if IsDecimal(b) then HexDigit(b - 0x30, false)
    else if b < 0x61 then HexDigit(b - 0x41 + 10, true)
    else HexDigit(b - 0x61 + 10, false)
  }

  function HexesOf(s: seq<byte>): seq<HexDigit>
    requires forall k :: 0 <= k < |s| ==> IsDigit(s[k], true)
  {
    seq(|s|, k requires 0 <= k < |s| => HexOf(s[k]))
  }

  /** A reference of any of the four forms. */
  predicate IsReference(part: Part)
  {
    part.DecimalRef? || part.HexRef? || part.Named? || part.EntityOf?
  }

  lemma DecimalFound(naming: Naming, text: seq<byte>, ptr: nat, s: seq<byte>, next: nat) returns (part: Part)
    requires At(text, ptr, [0x26, 0x23]) && At(text, ptr + 2, s) && At(text, ptr + 2 + |s|, [0x3B])
    requires s != [] && next == ptr + |s| + 3 && forall k :: 0 <= k < |s| ==> IsDecimal(s[k])
    ensures IsReference(part) && PartAt(naming, text, ptr, part, next)
  {
    part := DecimalRef(DecimalsOf(s));
    assert DecimalText(DecimalsOf(s)) == s;
    AtParts(text, ptr, [0x26, 0x23], s);
    AtParts(text, ptr, [0x26, 0x23] + s, [0x3B]);
  }

  lemma HexFound(naming: Naming, text: seq<byte>, ptr: nat, s: seq<byte>, next: nat) returns (part: Part)
    requires At(text, ptr, [0x26, 0x23, 0x78]) && At(text, ptr + 3, s) && At(text, ptr + 3 + |s|, [0x3B])
    requires s != [] && next == ptr + |s| + 4 && forall k :: 0 <= k < |s| ==> IsDigit(s[k], true)
    ensures IsReference(part) && PartAt(naming, text, ptr, part, next)
  {
    part := HexRef(HexesOf(s));
    assert HexText(HexesOf(s)) == s;
    AtParts(text, ptr, [0x26, 0x23, 0x78], s);
    AtParts(text, ptr, [0x26, 0x23, 0x78] + s, [0x3B]);
  }

  lemma NumberFound(naming: Naming, text: seq<byte>, ptr: nat, next: nat) returns (part: Part)
    requires At(text, ptr, [0x26, 0x23]) && CharRefToken(text, ptr + 2) == Token(CharRef, next)
    ensures IsReference(part) && PartAt(naming, text, ptr, part, next)
  {
    var hex := text[ptr + 2] == 0x78;
    var start := if hex then ptr + 3 else ptr + 2;
    DigitsFound(text, start + 1, hex, next);
    var s := text[start..next - 1];
    AtSlice(text, start, s);
    forall k | 0 <= k < |s|
      ensures IsDigit(s[k], hex)
    {
      assert s[k] == text[start + k];
    }
    if hex {
      AtParts(text, ptr, [0x26, 0x23], [0x78]);
      assert [0x26, 0x23] + [0x78] == [0x26, 0x23, 0x78];
      part := HexFound(naming, text, ptr, s, next);
    } else {
      part := DecimalFound(naming, text, ptr, s, next);
    }
  }

  function FiveOf(name: EntityName): (five: Five)
    requires IsPredefined(name)
    ensures NameOf(five) == name
  {
    if name == NameOf(Lt) then Lt
    else if name == NameOf(Gt) then Gt
    else if name == NameOf(Amp) then Amp
    else if name == NameOf(Quot) then Quot
    else Apos
  }

  /** The bytes from ptr to end are a name: the first character, and the rest from rest on. */
  lemma NameJoined(naming: Naming, text: seq<byte>, ptr: nat, rest: nat, end: nat)
    requires ptr < rest <= end <= |text| && rest == ptr + Announced(text[ptr]) && NameTail(naming, text[rest..end])
    requires if rest == ptr + 1 then StartsName(text[ptr]) else naming.isNmstrt(text[ptr..rest])
    ensures IsName(naming, text[ptr..end]) && At(text, ptr, text[ptr..end])
  {
    var s := text[ptr..end];
    assert s[0] == text[ptr] && s[..rest - ptr] == text[ptr..rest] && s[rest - ptr..] == text[rest..end];
    AtSlice(text, ptr, s);
  }

  /** The token of a reference by name ends behind a name and a semicolon. */
  lemma NameSpans(naming: Naming, text: seq<byte>, ptr: nat, next: nat) returns (s: seq<byte>)
    requires ptr < |text| && text[ptr] == 0x26 && ValueToken(naming, text, ptr) == Token(EntityRef, next)
    ensures IsName(naming, s) && At(text, ptr + 1, s) && next == ptr + |s| + 2 <= |text| && text[next - 1] == 0x3B
  {
    s := text[ptr + 1..next - 1];
    var rest := ptr + 1 + Announced(text[ptr + 1]);
    NameFound(naming, text, rest, next);
    NameJoined(naming, text, ptr + 1, rest, next - 1);
  }

  lemma NamedFound(naming: Naming, text: seq<byte>, ptr: nat, next: nat) returns (part: Part)
    requires ptr < |text| && text[ptr] == 0x26 && ValueToken(naming, text, ptr) == Token(EntityRef, next)
    ensures IsReference(part) && PartAt(naming, text, ptr, part, next)
  {
    var s := NameSpans(naming, text, ptr, next);
    AtParts(text, ptr, [0x26], s);
    AtParts(text, ptr, [0x26] + s, [0x3B]);
    part := if IsPredefined(s) then Named(FiveOf(s)) else EntityOf(s);
  }

  lemma NameTaken(naming: Naming, text: seq<byte>, ptr: nat, name: EntityName)
    requires IsName(naming, name) && At(text, ptr, [0x26] + name + [0x3B])
    ensures ValueToken(naming, text, ptr) == Token(EntityRef, ptr + |name| + 2)
  {
    NameToken(naming, text, ptr, name, ptr + |name| + 2);
  }

  lemma NumberTaken(naming: Naming, text: seq<byte>, ptr: nat, next: nat)
    requires At(text, ptr, [0x26, 0x23]) && CharRefToken(text, ptr + 2) == Token(CharRef, next)
    ensures ValueToken(naming, text, ptr) == Token(CharRef, next)
  {
    AtFirst(text, ptr, [0x26, 0x23]);
  }

  lemma ReferenceTaken(naming: Naming, text: seq<byte>, ptr: nat, part: Part, next: nat)
    requires IsReference(part) && PartAt(naming, text, ptr, part, next)
    ensures ValueToken(naming, text, ptr) ==
             Token(if part.DecimalRef? || part.HexRef? then CharRef else EntityRef, next)
  {
    match part {
      case DecimalRef(_) =>
        DecimalTaken(naming, text, ptr, part, next);
        NumberTaken(naming, text, ptr, next);
      case HexRef(_) =>
        HexTaken(naming, text, ptr, part, next);
        NumberTaken(naming, text, ptr, next);
      case Named(five) =>
        FiveNames(naming, [], five);
        NameTaken(naming, text, ptr, NameOf(five));
      case EntityOf(name) => NameTaken(naming, text, ptr, name);
    }
  }

  /** Why there is no reference: the text ends, or ends inside a character, or goes on with a byte that is in none. */
  predicate RefusedAt(text: seq<byte>, t: Token)
  {
    match t.kind
    case Partial => t.next == |text|
    case PartialChar => t.next < |text| && |text| - t.next < Announced(text[t.next])
    case Invalid => t.next < |text| && t.next + Announced(text[t.next]) <= |text|
    case _ => false
  }

  lemma {:induction false} DigitsRefused(text: seq<byte>, ptr: nat, hex: bool)
    requires ptr <= |text| && DigitsFrom(text, ptr, hex).kind != CharRef
    ensures DigitsFrom(text, ptr, hex).kind in {Partial, Invalid}
    ensures DigitsFrom(text, ptr, hex).kind == Partial ==> DigitsFrom(text, ptr, hex).next == |text|
    decreases |text| - ptr
  {
    if ptr < |text| && IsDigit(text[ptr], hex) {
      DigitsRefused(text, ptr + 1, hex);
    }
  }

  lemma {:induction false} NameRefused(naming: Naming, text: seq<byte>, ptr: nat)
    requires ptr <= |text| && NameFrom(naming, text, ptr).kind != EntityRef
    ensures RefusedAt(text, NameFrom(naming, text, ptr))
    decreases |text| - ptr
  {
    if ptr < |text| && NameStep(naming, text, ptr).Advance? {
      NameRefused(naming, text, ptr + NameStep(naming, text, ptr).n);
    }
  }

  /** A reference by name breaks off at the end, inside a character or before one that names do not have. */
  lemma ReferenceRefused(naming: Naming, text: seq<byte>, ptr: nat)
    requires ptr < |text| && text[ptr] == 0x26 && ValueToken(naming, text, ptr).kind !in {CharRef, EntityRef}
    ensures var t := ValueToken(naming, text, ptr);
            if ptr + 1 < |text| && text[ptr + 1] == 0x23
            then t.kind in {Partial, Invalid} && (t.kind == Partial ==> t.next == |text|)
            else RefusedAt(text, t)
  {
    if ptr + 1 < |text| {
      if text[ptr + 1] == NUM {
        var first := if ptr + 2 < |text| && text[ptr + 2] == 0x78 then ptr + 3 else ptr + 2;
        if first < |text| && IsDigit(text[first], first == ptr + 3) {
          DigitsRefused(text, first + 1, first == ptr + 3);
        }
      } else if RefStep(naming, text, ptr + 1).Advance? {
        NameRefused(naming, text, ptr + 1 + RefStep(naming, text, ptr + 1).n);
      }
    }
  }

  /** An ampersand is taken as a reference exactly where one of the four forms stands; else the value is refused. */
  lemma ReferenceIff(naming: Naming, text: seq<byte>, ptr: nat, next: nat)
    requires ptr < |text| && text[ptr] == 0x26
    ensures var t := ValueToken(naming, text, ptr);
            && (t.kind in {CharRef, EntityRef} && t.next == next <==>
                exists part :: IsReference(part) && PartAt(naming, text, ptr, part, next))
            && t.kind in {CharRef, EntityRef, Invalid, Partial, PartialChar}
            && (t.kind == PartialChar ==> t.next < |text| && |text| - t.next < Announced(text[t.next]))
  {
    var t := ValueToken(naming, text, ptr);
    if t.kind !in {CharRef, EntityRef} {
      ReferenceRefused(naming, text, ptr);
    }
    if t == Token(CharRef, next) {
      var part := NumberFound(naming, text, ptr, next);
    } else if t == Token(EntityRef, next) {
      var part := NamedFound(naming, text, ptr, next);
    }
    forall part | IsReference(part) && PartAt(naming, text, ptr, part, next)
      ensures t.kind in {CharRef, EntityRef} && t.next == next
    {
      ReferenceTaken(naming, text, ptr, part, next);
    }
  }

  /** An ampersand without one is an invalid token, or an unexpected state where a name ends in a cut-off character. */
  lemma MalformedSays(rules: Rules, open: set<EntityName>, text: seq<byte>, ptr: nat)
    requires ptr < |text| && text[ptr] == 0x26
    requires !exists part, next :: IsReference(part) && PartAt(rules.naming, text, ptr, part, next)
    ensures var t := ValueToken(rules.naming, text, ptr);
            Rest(rules, open, text, ptr) ==
            Expansion(if ptr + 1 < |text| && text[ptr + 1] != 0x23 && t.next < |text|
                         && |text| - t.next < Announced(text[t.next])
                      then UnexpectedState else InvalidToken, [])
  {
    var t := ValueToken(rules.naming, text, ptr);
    ReferenceIff(rules.naming, text, ptr, t.next);
    ReferenceRefused(rules.naming, text, ptr);
    RestHalts(rules, open, text, ptr, if t.kind == PartialChar then UnexpectedState else InvalidToken);
  }
}
