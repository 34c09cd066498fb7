/** What is stored for an attribute value: every character string can be written so that it is stored as it is. */
module StoredValues {
  import opened ByteTexts
  import opened Wrappers
  import opened Bytes
  import opened XmlBytes
  import opened XmlChars
  import opened AttributeTokens
  import opened EntityExpansion
  import opened AttributeValues
  import opened AttributeTexts

  /** A space where a piece brings one. */
  function Shown(marks: seq<Option<byte>>): seq<byte>
  {
    seq(|marks|, k requires 0 <= k < |marks| => if marks[k].Some? then marks[k].value else 0x20)
  }

  lemma PieceKept(pool: seq<byte>, piece: Piece)
    ensures StorePiece(true, pool, piece) == pool + Shown(PieceMarks(piece))
  {
  }

  lemma ShownMore(pool: seq<byte>, a: seq<Option<byte>>, b: seq<Option<byte>>)
    ensures pool + Shown(a) + Shown(b) == pool + Shown(a + b)
  {
    assert Shown(a + b) == Shown(a) + Shown(b);
  }

  /** A value that is not tokenized is stored with all its spaces. */
  lemma {:induction false} CdataKept(pool: seq<byte>, pieces: seq<Piece>)
    ensures Store(true, pool, pieces) == pool + Shown(Marks(pieces))
    decreases pieces
  {
    if pieces != [] {
      PieceKept(pool, pieces[0]);
      CdataKept(StorePiece(true, pool, pieces[0]), pieces[1..]);
      ShownMore(pool, PieceMarks(pieces[0]), Marks(pieces[1..]));
    }
  }

  /** How a character is written: by a reference where it would end data or turn into a space. */
  function Escaped(c: CharNumber): Part
  {
    if c == 0x3C then Named(Lt)
    else if c == 0x3E then Named(Gt)
    else if c == 0x26 then Named(Amp)
    else if c == 0x22 then Named(Quot)
    else if c == 0x27 then Named(Apos)
    else if c == 9 || c == 0x0A || c == 0x0D then HexRef([HexDigit(c, true)])
    else if c == 0x20 then Blank
    else Ch(c)
  }

  function AllEscaped(chars: seq<CharNumber>): seq<Part>
  {
    if chars == [] then [] else [Escaped(chars[0])] + AllEscaped(chars[1..])
  }

  lemma EscapedSays(rules: Rules, open: set<EntityName>, c: CharNumber)
    requires XmlChar(c)
    ensures ProperPart(rules.naming, Escaped(c)) && !Escaped(c).LoneCr?
    ensures Say(rules, open, Escaped(c)).error == NoError
    ensures Shown(Marks(Say(rules, open, Escaped(c)).pieces)) == Utf8(c)
  {
    if Escaped(c).HexRef? {
      OneDigit(c);
    }
  }

  lemma OneDigit(v: nat)
    ensures ValueOfDigits(HexValues([HexDigit(v, true)]), 16) == v
  {
    assert HexValues([HexDigit(v, true)])[..0] == [];
  }

  /** The parts say exactly these bytes. */
  ghost predicate SaysBytes(rules: Rules, open: set<EntityName>, parts: seq<Part>, bytes: seq<byte>)
  {
    && Proper(rules.naming, parts) && SayAll(rules, open, parts).error == NoError
    && Shown(Marks(SayAll(rules, open, parts).pieces)) == bytes
  }

  lemma ShownTwo(a: seq<Piece>, b: seq<Piece>)
    ensures Shown(Marks(a + b)) == Shown(Marks(a)) + Shown(Marks(b))
  {
    MarksTwo(a, b);
    assert Shown(Marks(a) + Marks(b)) == Shown(Marks(a)) + Shown(Marks(b));
  }

  lemma SaysFirst(rules: Rules, open: set<EntityName>, part: Part, parts: seq<Part>, first: seq<byte>, bytes: seq<byte>)
    requires ProperPart(rules.naming, part) && !part.LoneCr? && Say(rules, open, part).error == NoError
    requires Shown(Marks(Say(rules, open, part).pieces)) == first && SaysBytes(rules, open, parts, bytes)
    ensures SaysBytes(rules, open, [part] + parts, first + bytes)
  {
    SayFirst(rules, open, part, parts);
    ShownTwo(Say(rules, open, part).pieces, SayAll(rules, open, parts).pieces);
  }

  lemma SayFirst(rules: Rules, open: set<EntityName>, part: Part, parts: seq<Part>)
    requires ProperPart(rules.naming, part) && !part.LoneCr? && Proper(rules.naming, parts)
    ensures Proper(rules.naming, [part] + parts)
    ensures SayAll(rules, open, [part] + parts) == Then(Say(rules, open, part), SayAll(rules, open, parts))
  {
    assert ([part] + parts)[1..] == parts;
  }

  lemma {:induction false} EscapesSay(rules: Rules, open: set<EntityName>, chars: seq<CharNumber>)
    requires forall k :: 0 <= k < |chars| ==> XmlChar(chars[k])
    ensures SaysBytes(rules, open, AllEscaped(chars), AllUtf8(chars))
    decreases chars
  {
    if chars != [] {
      EscapedSays(rules, open, chars[0]);
      EscapesSay(rules, open, chars[1..]);
      SaysFirst(rules, open, Escaped(chars[0]), AllEscaped(chars[1..]), Utf8(chars[0]), AllUtf8(chars[1..]));
    }
  }

  /** Any characters of XML, written with references where needed, are stored as they are. */
  lemma EscapeRoundTrip(rules: Rules, open: set<EntityName>, chars: seq<CharNumber>)
    requires forall k :: 0 <= k < |chars| ==> XmlChar(chars[k])
    ensures var e := ValueOf(rules, open, Spelled(AllEscaped(chars)));
            e.error == NoError && Stored(true, e.pieces) == AllUtf8(chars)
  {
    EscapesSay(rules, open, chars);
    ValueSays(rules, open, AllEscaped(chars));
    CdataKept([], ValueOf(rules, open, Spelled(AllEscaped(chars))).pieces);
  }

  lemma StoreSpace(pool: seq<byte>, rest: seq<Piece>)
    ensures Store(false, pool, [Space] + rest) == Store(false, StorePiece(false, pool, Space), rest)
    ensures Store(false, pool, []) == pool
  {
    assert ([Space] + rest)[1..] == rest;
  }

  lemma TwoSpaces(pool: seq<byte>)
    ensures Store(false, pool, [Space, Space]) == Store(false, pool, [Space]) == StorePiece(false, pool, Space)
  {
    assert [Space] + [Space] == [Space, Space] && [Space] + [] == [Space];
    StoreSpace(pool, []);
    StoreSpace(pool, [Space]);
    StoreSpace(StorePiece(false, pool, Space), []);
  }

  lemma DropsLast(a: seq<Piece>)
    ensures Stored(false, a + [Space]) == Stored(false, a)
  {
    StoreTwo(false, [], a, [Space]);
    TwoSpaces(Store(false, [], a));
  }

  /** Spaces at the start and at the end of a tokenized value are dropped, and one of two next to each other. */
  lemma TokenizedDrops(a: seq<Piece>, b: seq<Piece>)
    ensures Stored(false, [Space] + b) == Stored(false, b)
    ensures Stored(false, a + [Space]) == Stored(false, a)
    ensures Stored(false, a + [Space, Space] + b) == Stored(false, a + [Space] + b)
  {
    StoreSpace([], b);
    DropsLast(a);
    StoreTwo(false, [], a + [Space, Space], b);
    StoreTwo(false, [], a, [Space, Space]);
    StoreTwo(false, [], a + [Space], b);
    StoreTwo(false, [], a, [Space]);
    TwoSpaces(Store(false, [], a));
  }

  /** A pool that is a start of single-spaced bytes takes every space of the rest. */
  lemma {:induction false} SingleKept(pool: seq<byte>, pieces: seq<Piece>)
    requires SingleSpaced(Store(true, pool, pieces))
    ensures Store(false, pool, pieces) == Store(true, pool, pieces)
    decreases pieces
  {
    if pieces != [] {
      var next := StorePiece(true, pool, pieces[0]);
      CdataKept(next, pieces[1..]);
      if pieces[0].Space? {
        assert Store(true, pool, pieces)[|pool|] == SPACE;
        assert pool != [] ==> Store(true, pool, pieces)[|pool| - 1] == pool[|pool| - 1];
      }
      SingleKept(next, pieces[1..]);
    }
  }

  /** Where there are none to drop, tokenizing changes nothing. */
  lemma TidyKept(pieces: seq<Piece>)
    requires Tidy(Stored(true, pieces))
    ensures Stored(false, pieces) == Stored(true, pieces)
  {
    SingleKept([], pieces);
  }
}
