/** What a CDATA section says, told from its text: characters and line ends, up to the first "]]>". */
module CdataTexts {
  import opened ByteTexts
  import opened Bytes
  import opened XmlBytes
  import opened XmlChars
  import opened CdataSection

  /** What the text of a section consists of. */
  datatype Item = Ch(c: CharNumber) | CrLf | LoneCr | LoneLf

  const CLOSE: seq<byte> := [0x5D, 0x5D, 0x3E]

  predicate ProperItem(item: Item)
  {
    item.Ch? ==> XmlChar(item.c) && item.c != 0x0D && item.c != 0x0A
  }

  /** A carriage return and the line feed behind it are one line end, and nothing closes the section. */
  predicate ProperFirst(items: seq<Item>)
    requires items != []
  {
    && ProperItem(items[0])
    && !(items[0].LoneCr? && 1 < |items| && items[1].LoneLf?)
    && !(items[0] == Ch(0x5D) && 2 < |items| && items[1] == Ch(0x5D) && items[2] == Ch(0x3E))
  }

  predicate Proper(items: seq<Item>)
  {
    items != [] ==> ProperFirst(items) && Proper(items[1..])
  }

  function ItemBytes(item: Item): (s: seq<byte>)
    ensures s != []
  {
    match item
    case Ch(c) => Utf8(c)
    case CrLf => [0x0D, 0x0A]
    case LoneCr => [0x0D]
    case LoneLf => [0x0A]
  }

  /** The text in the document. */
  function Spelled(items: seq<Item>): seq<byte>
  {
    if items == [] then [] else ItemBytes(items[0]) + Spelled(items[1..])
  }

  /** What the application is told of an item: the character itself, a line feed for every line end. */
  function ToldOf(item: Item): seq<byte>
  {
    if item.Ch? then Utf8(item.c) else [0x0A]
  }

  /** What the application is told of all items. */
  function Told(items: seq<Item>): seq<byte>
  {
    if items == [] then [] else ToldOf(items[0]) + Told(items[1..])
  }

  /** Only the ASCII character has its byte. */
  lemma FirstByte(c: nat)
    requires XmlChar(c)
    ensures c < 0x80 ==> Utf8(c) == [c]
    ensures c >= 0x80 ==> Utf8(c)[0] >= 0x80
  {
  }

  /** The text of some items with its end behind it, from a place on. */
  ghost predicate Stands(b: seq<byte>, i: nat, items: seq<Item>)
  {
    At(b, i, Spelled(items)) && At(b, i + |Spelled(items)|, CLOSE)
  }

  lemma StandsTail(b: seq<byte>, i: nat, items: seq<Item>, j: nat)
    requires Proper(items) && items != [] && Stands(b, i, items) && j == i + |ItemBytes(items[0])|
    ensures ProperItem(items[0]) && Proper(items[1..]) && At(b, i, ItemBytes(items[0]))
    ensures Stands(b, j, items[1..])
  {
    AtParts(b, i, ItemBytes(items[0]), Spelled(items[1..]));
    assert i + |Spelled(items)| == j + |Spelled(items[1..])|;
  }

  /** What the first byte of the text tells about the first item. */
  lemma FirstTells(b: seq<byte>, i: nat, items: seq<Item>)
    requires Proper(items) && Stands(b, i, items)
    ensures i < |b|
    ensures b[i] == 0x0A <==> items != [] && items[0] == LoneLf
    ensures b[i] == 0x3E <==> items != [] && items[0] == Ch(0x3E)
    ensures b[i] == 0x5D <==> items == [] || items[0] == Ch(0x5D)
  {
    if items == [] {
      AtFirst(b, i, CLOSE);
    } else {
      StandsTail(b, i, items, i + |ItemBytes(items[0])|);
      AtFirst(b, i, ItemBytes(items[0]));
      if items[0].Ch? {
        FirstByte(items[0].c);
      }
    }
  }

  /** A right bracket of the text does not close the section. */
  lemma BracketStays(b: seq<byte>, i: nat, items: seq<Item>)
    requires Proper(items) && Stands(b, i, items) && items != [] && items[0] == Ch(0x5D)
    ensures CharAt(b, i) == Data(1)
  {
    FirstTells(b, i, items);
    StandsTail(b, i, items, i + |ItemBytes(items[0])|);
    var rest := items[1..];
    FirstTells(b, i + 1, rest);
    if rest == [] {
      AtFirst(b, i + 1, CLOSE);
    } else if rest[0] == Ch(0x5D) {
      StandsTail(b, i + 1, rest, i + 2);
      FirstTells(b, i + 2, rest[1..]);
    }
  }

  /** A character of several bytes, or an ASCII one other than the bracket. */
  lemma DataStays(b: seq<byte>, i: nat, c: nat)
    requires XmlChar(c) && c != 0x5D && c != 0x0D && c != 0x0A && At(b, i, Utf8(c))
    ensures CharAt(b, i) == Data(|Utf8(c)|)
  {
    AtFirst(b, i, Utf8(c));
    FirstByte(c);
    Utf8WellFormed(c);
  }

  lemma LineEndStays(b: seq<byte>, i: nat, items: seq<Item>)
    requires Proper(items) && Stands(b, i, items) && items != [] && !items[0].Ch?
    ensures CharAt(b, i) == LineEnd(|ItemBytes(items[0])|)
  {
    StandsTail(b, i, items, i + |ItemBytes(items[0])|);
    AtFirst(b, i, ItemBytes(items[0]));
    if items[0].LoneCr? {
      FirstTells(b, i + 1, items[1..]);
    }
  }

  /** One item of the text is one character of the section. */
  lemma ItemIsChar(b: seq<byte>, i: nat, items: seq<Item>)
    requires Proper(items) && Stands(b, i, items) && items != []
    ensures ProperItem(items[0])
    ensures CharAt(b, i) == if items[0].Ch? then Data(|ItemBytes(items[0])|) else LineEnd(|ItemBytes(items[0])|)
    ensures At(b, i, ItemBytes(items[0]))
  {
    StandsTail(b, i, items, i + |ItemBytes(items[0])|);
    if !items[0].Ch? {
      LineEndStays(b, i, items);
    } else if items[0] == Ch(0x5D) {
      BracketStays(b, i, items);
    } else {
      DataStays(b, i, items[0].c);
    }
  }

  lemma ItemTold(b: seq<byte>, i: nat, item: Item, c: Char)
    requires At(b, i, ItemBytes(item))
    requires c == if item.Ch? then Data(|ItemBytes(item)|) else LineEnd(|ItemBytes(item)|)
    ensures (c.Data? ==> i + c.n <= |b|) && CharsOf(b, i, c) == ToldOf(item)
  {
    AtSlice(b, i, ItemBytes(item));
  }

  /** An item comes before what the rest says. */
  lemma SaysMore(b: seq<byte>, i: nat, items: seq<Item>, j: nat, rest: Outcome)
    requires Proper(items) && Stands(b, i, items) && items != []
    requires j == i + |ItemBytes(items[0])| && rest == Section(b, j)
    ensures Section(b, i) == Prepend(ToldOf(items[0]), rest)
  {
    ItemIsChar(b, i, items);
    ItemTold(b, i, items[0], CharAt(b, i));
    SectionIs(b, i, CharAt(b, i), j, rest);
  }

  lemma SumUp(i: nat, items: seq<Item>, j: nat, rest: Outcome)
    requires items != [] && j == i + |ItemBytes(items[0])|
    requires rest == Closed(Told(items[1..]), j + |Spelled(items[1..])| + 3)
    ensures Prepend(ToldOf(items[0]), rest) == Closed(Told(items), i + |Spelled(items)| + 3)
  {
  }

  lemma TextStep(b: seq<byte>, i: nat, items: seq<Item>, j: nat, rest: Outcome)
    requires Proper(items) && Stands(b, i, items) && items != [] && j == i + |ItemBytes(items[0])|
    requires rest == Section(b, j) && rest == Closed(Told(items[1..]), j + |Spelled(items[1..])| + 3)
    ensures Section(b, i) == Closed(Told(items), i + |Spelled(items)| + 3)
  {
    SaysMore(b, i, items, j, rest);
    SumUp(i, items, j, rest);
  }

  /** Behind "<![CDATA[": a text that is closed by "]]>" says its characters, with a line feed for every line end. */
  lemma {:induction false} TextSays(b: seq<byte>, i: nat, items: seq<Item>)
    requires Proper(items) && Stands(b, i, items)
    ensures Section(b, i) == Closed(Told(items), i + |Spelled(items)| + 3)
    decreases items
  {
    if items == [] {
      ClosesHere(b, i);
    } else {
      var j := i + |ItemBytes(items[0])|;
      StandsTail(b, i, items, j);
      TextSays(b, j, items[1..]);
      TextStep(b, i, items, j, Section(b, j));
    }
  }

  lemma ClosesHere(b: seq<byte>, i: nat)
    requires At(b, i, CLOSE)
    ensures Section(b, i) == Closed([], i + 3)
  {
    AtFirst(b, i, CLOSE);
    SectionEnds(b, i, Close);
  }

  /** Why a text is not closed: at p there is no character, part of one, or what may go on to be one. */
  ghost predicate StopsAt(b: seq<byte>, p: nat, error: Error)
  {
    && p <= |b|
    && match error
       case InvalidToken =>
         && p < |b| && p + Announced(b[p]) <= |b|
         && forall c: nat {:trigger Utf8(c)} :: XmlChar(c) ==> !At(b, p, Utf8(c))
       case PartialChar => p < |b| && |b| - p < Announced(b[p])
       case Unclosed => b[p..] in [[], [CR], [RSQB], [RSQB, RSQB]]
  }

  lemma FailStops(b: seq<byte>, i: nat)
    requires CharAt(b, i) == Fail
    ensures StopsAt(b, i, InvalidToken)
  {
    forall c: nat {:trigger Utf8(c)} | XmlChar(c)
      ensures !At(b, i, Utf8(c))
    {
      Utf8WellFormed(c);
      if At(b, i, Utf8(c)) {
        AtFirst(b, i, Utf8(c));
      }
    }
  }

  lemma NeedStops(b: seq<byte>, i: nat)
    requires CharAt(b, i).Need? && i <= |b|
    ensures StopsAt(b, i, CharAt(b, i).error)
  {
    assert CharAt(b, i).error == Unclosed ==> |b| - i <= 2;
    assert |b| - i == 1 ==> b[i..] == [b[i]];
    assert |b| - i == 2 ==> b[i..] == [b[i], b[i + 1]];
  }

  /** The item of a character that goes on. */
  ghost function ItemAt(b: seq<byte>, i: nat): (item: Item)
    requires CharAt(b, i).Data? || CharAt(b, i).LineEnd?
  {
    match CharAt(b, i)
    case Data(n) => var s := b[i..i + n]; if n <= 4 && 0 <= Decode(s) < 0x110000 then Ch(Decode(s)) else LoneLf
    case LineEnd(n) => if n == 2 then CrLf else if b[i] == CR then LoneCr else LoneLf
  }

  lemma ItemFound(b: seq<byte>, i: nat)
    requires CharAt(b, i).Data? || CharAt(b, i).LineEnd?
    ensures ProperItem(ItemAt(b, i)) && ItemBytes(ItemAt(b, i)) == b[i..i + CharAt(b, i).n]
    ensures At(b, i, ItemBytes(ItemAt(b, i))) && CharsOf(b, i, CharAt(b, i)) == ToldOf(ItemAt(b, i))
    ensures ItemAt(b, i) == LoneCr ==> i + 1 < |b| && b[i + 1] != LF
  {
    var n := CharAt(b, i).n;
    var s := b[i..i + n];
    assert forall j :: 0 <= j < n ==> s[j] == b[i + j];
    if CharAt(b, i).Data? {
      assert WellFormed(s);
      WellFormedHolds(s);
      FirstByte(Decode(s));
    } else {
      assert n == 1 ==> s == [b[i]];
      assert n == 2 ==> s == [b[i], b[i + 1]];
    }
    AtSlice(b, i, s);
  }

  /** The text up to the end of the section, or up to where it stops. */
  ghost predicate Says(b: seq<byte>, i: nat, items: seq<Item>, o: Outcome)
  {
    && Proper(items) && At(b, i, Spelled(items)) && o.chars == Told(items)
    && var p := i + |Spelled(items)|;
       match o
       case Closed(_, at) => At(b, p, CLOSE) && at == p + 3
       case Bad(_, error, at) => StopsAt(b, p, error) && at == p
  }

  lemma SpelledFirst(b: seq<byte>, i: nat, items: seq<Item>)
    requires items != [] && At(b, i, Spelled(items))
    ensures At(b, i, ItemBytes(items[0])) && At(b, i + |ItemBytes(items[0])|, Spelled(items[1..]))
  {
    AtParts(b, i, ItemBytes(items[0]), Spelled(items[1..]));
  }

  /** An item of one byte is that byte. */
  lemma OneByte(b: seq<byte>, i: nat, items: seq<Item>, v: byte)
    requires items != [] && At(b, i, Spelled(items)) && ItemBytes(items[0]) == [v]
    ensures i < |b| && b[i] == v && At(b, i + 1, Spelled(items[1..]))
  {
    SpelledFirst(b, i, items);
    AtFirst(b, i, [v]);
    assert |ItemBytes(items[0])| == 1;
  }

  lemma BracketThenGt(b: seq<byte>, i: nat, rest: seq<Item>)
    requires |rest| > 1 && rest[0] == Ch(0x5D) && rest[1] == Ch(0x3E) && At(b, i, Spelled(rest))
    ensures i + 1 < |b| && b[i] == RSQB && b[i + 1] == GT
  {
    OneByte(b, i, rest, RSQB);
    OneByte(b, i + 1, rest[1..], GT);
  }

  lemma ItemBefore(b: seq<byte>, i: nat, j: nat, item: Item, rest: seq<Item>)
    requires ProperItem(item) && Proper(rest) && At(b, i, ItemBytes(item))
    requires j == i + |ItemBytes(item)| && At(b, j, Spelled(rest))
    requires !CharAt(b, i).Close? && (item == LoneCr ==> i + 1 < |b| && b[i + 1] != LF)
    ensures Proper([item] + rest)
  {
    var items := [item] + rest;
    if item == LoneCr && rest != [] && rest[0] == LoneLf {
      OneByte(b, j, rest, LF);
    } else if item == Ch(0x5D) && |rest| > 1 && rest[0] == Ch(0x5D) && rest[1] == Ch(0x3E) {
      AtFirst(b, i, [RSQB]);
      BracketThenGt(b, j, rest);
    }
    assert items[1..] == rest;
  }

  lemma Joined(b: seq<byte>, i: nat, j: nat, item: Item, rest: seq<Item>)
    requires At(b, i, ItemBytes(item)) && j == i + |ItemBytes(item)| && At(b, j, Spelled(rest))
    ensures Spelled([item] + rest) == ItemBytes(item) + Spelled(rest)
    ensures Told([item] + rest) == ToldOf(item) + Told(rest)
    ensures At(b, i, Spelled([item] + rest))
  {
    assert ([item] + rest)[1..] == rest;
    AtParts(b, i, ItemBytes(item), Spelled(rest));
  }

  /** Every section, closed or in error, says what its text says: there is no other outcome. */
  lemma {:induction false} SectionSays(b: seq<byte>, i: nat) returns (items: seq<Item>)
    requires i <= |b|
    ensures Says(b, i, items, Section(b, i))
    decreases |b| - i
  {
    var c := CharAt(b, i);
    if c.Data? || c.LineEnd? {
      var rest := SectionSays(b, i + c.n);
      items := [ItemAt(b, i)] + rest;
      SaysBefore(b, i, c, i + c.n, rest, Section(b, i + c.n));
    } else {
      items := [];
      SectionEnds(b, i, c);
      StopsHere(b, i);
    }
  }

  lemma StopsHere(b: seq<byte>, i: nat)
    requires i <= |b| && !CharAt(b, i).Data? && !CharAt(b, i).LineEnd?
    ensures Says(b, i, [], EndOf(CharAt(b, i), i))
  {
    match CharAt(b, i) {
      case Close => assert b[i..i + 3] == CLOSE;
      case Fail => FailStops(b, i);
      case Need(_) => NeedStops(b, i);
    }
  }

  lemma SaysBefore(b: seq<byte>, i: nat, c: Char, j: nat, rest: seq<Item>, o: Outcome)
    requires c == CharAt(b, i) && (c.Data? || c.LineEnd?) && j == i + c.n && o == Section(b, j)
    requires Says(b, j, rest, o)
    ensures Says(b, i, [ItemAt(b, i)] + rest, Section(b, i))
  {
    ItemFound(b, i);
    SectionIs(b, i, c, j, o);
    SaysMoreBefore(b, i, j, ItemAt(b, i), rest, o, Section(b, i));
  }

  lemma SaysMoreBefore(b: seq<byte>, i: nat, j: nat, item: Item, rest: seq<Item>, o: Outcome, more: Outcome)
    requires j == i + |ItemBytes(item)| && Says(b, j, rest, o) && more == Prepend(ToldOf(item), o)
    requires ProperItem(item) && At(b, i, ItemBytes(item))
    requires !CharAt(b, i).Close? && (item == LoneCr ==> i + 1 < |b| && b[i + 1] != LF)
    ensures Says(b, i, [item] + rest, more)
  {
    ItemBefore(b, i, j, item, rest);
    Joined(b, i, j, item, rest);
    SaysPut(b, i, j, item, rest, [item] + rest, o, more);
  }

  lemma SaysPut(b: seq<byte>, i: nat, j: nat, item: Item, rest: seq<Item>, items: seq<Item>, o: Outcome, more: Outcome)
    requires j == i + |ItemBytes(item)| && Says(b, j, rest, o) && more == Prepend(ToldOf(item), o)
    requires Proper(items) && At(b, i, Spelled(items))
    requires Spelled(items) == ItemBytes(item) + Spelled(rest) && Told(items) == ToldOf(item) + Told(rest)
    ensures Says(b, i, items, more)
  {
  }

  /** A section ends exactly where its text is closed by the first "]]>" behind well-formed characters. */
  lemma ClosedIff(b: seq<byte>, chars: seq<byte>, at: nat)
    ensures Section(b, 0) == Closed(chars, at) <==>
              exists items :: Proper(items) && Stands(b, 0, items) && chars == Told(items) && at == |Spelled(items)| + 3
  {
    var items := SectionSays(b, 0);
    if Section(b, 0) == Closed(chars, at) {
      assert Proper(items) && Stands(b, 0, items);
    }
    forall other | Proper(other) && Stands(b, 0, other)
      ensures Section(b, 0) == Closed(Told(other), |Spelled(other)| + 3)
    {
      TextSays(b, 0, other);
    }
  }
}
