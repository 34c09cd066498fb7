/** The tokens inside an attribute value, and the references among them. */
module AttributeTokens {
  import opened Wrappers
  import opened Bytes
  import opened XmlBytes

  /** Which characters of several bytes may continue or start a name. */
  datatype Naming = Naming(isName: seq<byte> -> bool, isNmstrt: seq<byte> -> bool)

  datatype Kind =
    | Nothing | Invalid | Partial | PartialChar | CharRef | EntityRef | DataChars | TrailingCr | ValueS | Newline

  datatype Token = Token(kind: Kind, next: nat)

  /** Tokens after which scanning goes on. */
  predicate Continues(kind: Kind)
  {
    kind in {CharRef, EntityRef, DataChars, TrailingCr, ValueS, Newline}
  }

  /** A hexadecimal digit where hex is set, else a decimal one. */
  predicate IsDigit(b: byte, hex: bool)
  {
    IsDecimal(b) || (hex && IsHexLetter(b))
  }

  /** From inside the digits of a character reference to its semicolon. */
  function DigitsFrom(text: seq<byte>, ptr: nat, hex: bool): (t: Token)
    ensures t.kind != Nothing
    ensures Continues(t.kind) ==> t.kind == CharRef && ptr < t.next <= |text|
    decreases |text| - ptr
  {
    if ptr >= |text| then Token(Partial, ptr)
    else if IsDigit(text[ptr], hex) then DigitsFrom(text, ptr + 1, hex)
    else if text[ptr] == SEMI then Token(CharRef, ptr + 1)
    else Token(Invalid, ptr)
  }

  /** After "&#": at least one digit is required. */
  function CharRefToken(text: seq<byte>, ptr: nat): (t: Token)
    ensures t.kind != Nothing
    ensures Continues(t.kind) ==> t.kind == CharRef && ptr < t.next <= |text|
  {
    if ptr >= |text| then Token(Partial, ptr)
    else
      var hex := text[ptr] == 0x78;
      var first := if hex then ptr + 1 else ptr;
      if first >= |text| then Token(Partial, first)
      else if IsDigit(text[first], hex) then DigitsFrom(text, first + 1, hex)
      else Token(Invalid, first)
  }

  datatype Step = Advance(n: nat) | Stop(token: Token)

  /** One character of the name of an entity reference, or its end. */
  function NameStep(naming: Naming, text: seq<byte>, ptr: nat): (s: Step)
    requires ptr < |text|
    ensures s.Advance? ==> 1 <= s.n <= |text| - ptr
    ensures s.Stop? && Continues(s.token.kind) ==> s.token == Token(EntityRef, ptr + 1)
    ensures s.Stop? ==> s.token.kind != Nothing
  {
    var n := CharLength(text[ptr]);
    if n > 1 then
      if |text| - ptr < n then Stop(Token(PartialChar, ptr))
      else if !naming.isName(text[ptr..ptr + n]) then Stop(Token(Invalid, ptr))
      else Advance(n)
    else if IsNameByte(text[ptr]) then Advance(1)
    else if text[ptr] == SEMI then Stop(Token(EntityRef, ptr + 1))
    else Stop(Token(Invalid, ptr))
  }

  /** From inside the name of an entity reference to its semicolon. */
  function NameFrom(naming: Naming, text: seq<byte>, ptr: nat): (t: Token)
    ensures t.kind != Nothing
    ensures Continues(t.kind) ==> t.kind == EntityRef && ptr < t.next <= |text|
    decreases |text| - ptr
  {
    if ptr >= |text| then Token(Partial, ptr)
    else match NameStep(naming, text, ptr)
      case Advance(n) => NameFrom(naming, text, ptr + n)
      case Stop(token) => token
  }

  /** The first character after "&": a name starts, or a number sign leads to a character reference. */
  function RefStep(naming: Naming, text: seq<byte>, ptr: nat): (s: Step)
    requires ptr < |text|
    ensures s.Advance? ==> 1 <= s.n <= |text| - ptr
    ensures s.Stop? ==> s.token.kind in {PartialChar, Invalid}
  {
    var n := CharLength(text[ptr]);
    if n > 1 then
      if |text| - ptr < n then Stop(Token(PartialChar, ptr))
      else if !naming.isNmstrt(text[ptr..ptr + n]) then Stop(Token(Invalid, ptr))
      else Advance(n)
    else if IsNameStart(text[ptr]) then Advance(1)
    else Stop(Token(Invalid, ptr))
  }

  /** After "&". */
  function RefToken(naming: Naming, text: seq<byte>, ptr: nat): (t: Token)
    ensures t.kind != Nothing
    ensures Continues(t.kind) ==> t.kind in {CharRef, EntityRef} && ptr + 1 < t.next <= |text|
  {
    if ptr >= |text| then Token(Partial, ptr)
    else if text[ptr] == NUM then CharRefToken(text, ptr + 1)
    else match RefStep(naming, text, ptr)
      case Advance(n) => NameFrom(naming, text, ptr + n)
      case Stop(token) => token
  }

  /** White space, line ends and references end a run of data; so does a less-than sign, as an error. */
  predicate EndsData(b: byte)
  {
    b == AMP || b == LT || IsLineEnd(b) || IsS(b)
  }

  /** Past one character; one that is cut off at the end of the text is taken as it is. */
  function PastChar(text: seq<byte>, ptr: nat): (next: nat)
    requires ptr < |text|
    ensures ptr < next <= |text|
  {
    if |text| - ptr < CharLength(text[ptr]) then |text| else ptr + CharLength(text[ptr])
  }

  /** The run of data characters that goes on at ptr. */
  function DataFrom(text: seq<byte>, ptr: nat): (t: Token)
    requires ptr <= |text|
    ensures t.kind in {DataChars, Invalid} && ptr <= t.next <= |text|
    decreases |text| - ptr
  {
    if ptr == |text| then Token(DataChars, ptr)
    else if EndsData(text[ptr]) then Token(if text[ptr] == LT then Invalid else DataChars, ptr)
    else DataFrom(text, PastChar(text, ptr))
  }

  /** The token that starts with a character which ends data. */
  function EdgeToken(naming: Naming, text: seq<byte>, ptr: nat): (t: Token)
    requires ptr < |text| && EndsData(text[ptr])
    ensures Continues(t.kind) ==> ptr < t.next <= |text|
    ensures t.kind == EntityRef ==> ptr + 2 < t.next
    ensures t.kind != Nothing
  {
    if text[ptr] == AMP then RefToken(naming, text, ptr + 1)
    else if text[ptr] == LF then Token(Newline, ptr + 1)
    else if text[ptr] == CR then
      if ptr + 1 == |text| then Token(TrailingCr, ptr + 1)
      else Token(Newline, if text[ptr + 1] == LF then ptr + 2 else ptr + 1)
    else if IsS(text[ptr]) then Token(ValueS, ptr + 1)
    else Token(Invalid, ptr)
  }

  /** The token of an attribute value at ptr. */
  function ValueToken(naming: Naming, text: seq<byte>, ptr: nat): (t: Token)
    ensures Continues(t.kind) ==> ptr < t.next <= |text|
    ensures t.kind == EntityRef ==> ptr + 2 < t.next
    ensures t.kind == Nothing <==> ptr >= |text|
  {
    if ptr >= |text| then Token(Nothing, ptr)
    else if EndsData(text[ptr]) then EdgeToken(naming, text, ptr)
    else DataFrom(text, PastChar(text, ptr))
  }

  /** Scans the digits of a character reference, past the first. */
  method ScanDigits(text: seq<byte>, start: nat, hex: bool) returns (t: Token)
    ensures t == DigitsFrom(text, start, hex)
  {
    var ptr := start;
    while ptr < |text|
      invariant DigitsFrom(text, start, hex) == DigitsFrom(text, ptr, hex)
    {
      if !IsDigit(text[ptr], hex) {
        return if text[ptr] == SEMI then Token(CharRef, ptr + 1) else Token(Invalid, ptr);
      }
      ptr := ptr + 1;
    }
    return Token(Partial, ptr);
  }

  /** Scans a character reference, after its number sign. */
  method ScanCharRef(text: seq<byte>, start: nat) returns (t: Token)
    ensures t == CharRefToken(text, start)
  {
    var ptr := start;
    if ptr >= |text| {
      return Token(Partial, ptr);
    }
    var hex := text[ptr] == 0x78;
    if hex {
      ptr := ptr + 1;
      if ptr >= |text| {
        return Token(Partial, ptr);
      }
    }
    if !IsDigit(text[ptr], hex) {
      return Token(Invalid, ptr);
    }
    t := ScanDigits(text, ptr + 1, hex);
  }

  /** Scans a reference, after its ampersand. */
  method ScanRef(naming: Naming, text: seq<byte>, start: nat) returns (t: Token)
    ensures t == RefToken(naming, text, start)
  {
    var ptr := start;
    if ptr >= |text| {
      return Token(Partial, ptr);
    }
    if text[ptr] == NUM {
      t := ScanCharRef(text, ptr + 1);
      return;
    }
    var step := RefStep(naming, text, ptr);
    if step.Stop? {
      return step.token;
    }
    ptr := ptr + step.n;
    while ptr < |text|
      invariant RefToken(naming, text, start) == NameFrom(naming, text, ptr)
    {
      step := NameStep(naming, text, ptr);
      if step.Stop? {
        return step.token;
      }
      ptr := ptr + step.n;
    }
    return Token(Partial, ptr);
  }

  /** Scans the next token of an attribute value. */
  method ScanValue(naming: Naming, text: seq<byte>, start: nat) returns (t: Token)
    ensures t == ValueToken(naming, text, start)
  {
    if start >= |text| {
      return Token(Nothing, start);
    }
    var ptr := start;
    while ptr < |text|
      invariant start <= ptr <= |text|
      invariant ptr > start ==> ValueToken(naming, text, start) == DataFrom(text, ptr)
    {
      var b := text[ptr];
      if b == AMP {
        if ptr == start {
          t := ScanRef(naming, text, ptr + 1);
          return;
        }
        return Token(DataChars, ptr);
      } else if b == LT {
        return Token(Invalid, ptr);
      } else if b == LF {
        return if ptr == start then Token(Newline, ptr + 1) else Token(DataChars, ptr);
      } else if b == CR {
        if ptr > start {
          return Token(DataChars, ptr);
        }
        if ptr + 1 == |text| {
          return Token(TrailingCr, ptr + 1);
        }
        return Token(Newline, if text[ptr + 1] == LF then ptr + 2 else ptr + 1);
      } else if IsS(b) {
        return if ptr == start then Token(ValueS, ptr + 1) else Token(DataChars, ptr);
      }
      ptr := PastChar(text, ptr);
    }
    return Token(DataChars, ptr);
  }

  function DigitValue(b: byte): nat
  {
    if 0x30 <= b <= 0x39 then b - 0x30
    else if 0x41 <= b <= 0x46 then b - 0x41 + 10
    else if 0x61 <= b <= 0x66 then b - 0x61 + 10
    else 0
  }

  /** Surrogates, control characters and the two noncharacters are not characters. */
  function CheckedChar(c: nat): (r: Option<nat>)
    requires c < 0x110000
    ensures r.Some? ==> r.value == c
  {
    if 0xD800 <= c < 0xE000 then None
    else if c < 0x20 && c != 9 && c != 0x0A && c != 0x0D then None
    else if c == 0xFFFE || c == 0xFFFF then None
    else Some(c)
  }

  /** The rest of a character number, read up to the semicolon; none when it leaves the range of characters. */
  function NumberFrom(text: seq<byte>, ptr: nat, hex: bool, result: nat): (r: Option<nat>)
    requires result < 0x110000
    ensures r.Some? ==> r.value < 0x110000
    decreases |text| - ptr
  {
    if ptr >= |text| || text[ptr] == SEMI then CheckedChar(result)
    else
      var next := (if hex then 16 else 10) * result + DigitValue(text[ptr]);
      if next >= 0x110000 then None else NumberFrom(text, ptr + 1, hex, next)
  }

  /** The character of a reference whose ampersand is at ptr. */
  function CharRefNumber(text: seq<byte>, ptr: nat): (r: Option<nat>)
    ensures r.Some? ==> r.value < 0x110000
  {
    if IsHexRef(text, ptr) then NumberFrom(text, ptr + 3, true, 0) else NumberFrom(text, ptr + 2, false, 0)
  }

  /** The number that some digits stand for. */
  function PlaceValue(digits: seq<byte>, hex: bool): nat
  {
    if digits == [] then 0
    else PlaceValue(digits[..|digits| - 1], hex) * (if hex then 16 else 10) + DigitValue(digits[|digits| - 1])
  }

  /** The character of a number, if there is one. */
  function CharOf(v: nat): Option<nat>
  {
    if v < 0x110000 then CheckedChar(v) else None
  }

  /** More digits never make a number smaller. */
  lemma {:induction false} PlaceGrows(digits: seq<byte>, n: nat, hex: bool)
    requires n <= |digits|
    ensures PlaceValue(digits[..n], hex) <= PlaceValue(digits, hex)
    decreases |digits|
  {
    if n < |digits| {
      var m := |digits| - 1;
      PlaceGrows(digits[..m], n, hex);
      assert digits[..m][..n] == digits[..n];
    } else {
      assert digits[..n] == digits;
    }
  }

  lemma {:induction false} NumberIsPlaceValue(text: seq<byte>, start: nat, ptr: nat, e: nat, hex: bool)
    requires start <= ptr <= e < |text| && text[e] == SEMI && forall i :: ptr <= i < e ==> text[i] != SEMI
    requires PlaceValue(text[start..ptr], hex) < 0x110000
    ensures NumberFrom(text, ptr, hex, PlaceValue(text[start..ptr], hex)) == CharOf(PlaceValue(text[start..e], hex))
    decreases e - ptr
  {
    if ptr < e {
      assert text[start..ptr + 1][..ptr - start] == text[start..ptr];
      assert text[start..e][..ptr + 1 - start] == text[start..ptr + 1];
      PlaceGrows(text[start..e], ptr + 1 - start, hex);
      if PlaceValue(text[start..ptr + 1], hex) < 0x110000 {
        NumberIsPlaceValue(text, start, ptr + 1, e, hex);
      }
    }
  }

  /** Whether a character reference is hexadecimal, and where its digits start. */
  predicate IsHexRef(text: seq<byte>, ptr: nat)
  {
    ptr + 2 < |text| && text[ptr + 2] == 0x78
  }

  /** A reference whose digits end at e stands for the character that has the number they spell, if that is one. */
  lemma CharRefSpells(text: seq<byte>, ptr: nat, e: nat)
    requires var start := if IsHexRef(text, ptr) then ptr + 3 else ptr + 2;
             start <= e < |text| && text[e] == SEMI && forall i :: start <= i < e ==> text[i] != SEMI
    ensures var hex := IsHexRef(text, ptr);
            CharRefNumber(text, ptr) == CharOf(PlaceValue(text[if hex then ptr + 3 else ptr + 2..e], hex))
  {
    var hex := IsHexRef(text, ptr);
    var start := if hex then ptr + 3 else ptr + 2;
    assert text[start..start] == [];
    NumberIsPlaceValue(text, start, start, e, hex);
  }

  /** The five entities that need no declaration. */
  function Predefined(name: seq<byte>): (ch: Option<byte>)
    ensures ch.Some? ==> ch.value != 0x20
  {
    if name == [0x6C, 0x74] then Some(0x3C)
    else if name == [0x67, 0x74] then Some(0x3E)
    else if name == [0x61, 0x6D, 0x70] then Some(0x26)
    else if name == [0x71, 0x75, 0x6F, 0x74] then Some(0x22)
    else if name == [0x61, 0x70, 0x6F, 0x73] then Some(0x27)
    else None
  }
}
