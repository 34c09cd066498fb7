/** CDATA sections: what the bytes mean, and the tokens they are cut into. */
module CdataSection {
  import opened Bytes
  import opened XmlBytes

  datatype Error = InvalidToken | PartialChar | Unclosed

  /** The characters of a section and how it ends: closed, with the position behind, or in error. */
  datatype Outcome = Closed(chars: seq<byte>, at: nat) | Bad(chars: seq<byte>, error: Error, at: nat)

  /** What the next character is; Need says that it cannot be told without more bytes. */
  datatype Char = Data(n: nat) | LineEnd(n: nat) | Close | Fail | Need(error: Error)

  /** A carriage return, with a line feed if one follows, is one line end; only "]]>" ends the section. */
  function CharAt(b: seq<byte>, i: nat): (c: Char)
    ensures c.Data? || c.LineEnd? ==> 0 < c.n <= |b| - i
    ensures c.Close? ==> i + 3 <= |b|
    ensures !c.Need? ==> i < |b|
  {
    if i >= |b| then Need(Unclosed)
    else if b[i] == RSQB then
      if i + 1 == |b| then Need(Unclosed)
      else if b[i + 1] != RSQB then Data(1)
      else if i + 2 == |b| then Need(Unclosed)
      else if b[i + 2] == GT then Close
      else Data(1)
    else if b[i] == CR then
      if i + 1 == |b| then Need(Unclosed) else LineEnd(if b[i + 1] == LF then 2 else 1)
    else if b[i] == LF then LineEnd(1)
    else if IsBad(b[i]) then Fail
    else if |b| - i < CharLength(b[i]) then Need(PartialChar)
    else if IsLead(b[i]) && InvalidChar(b, i) then Fail
    else Data(CharLength(b[i]))
  }

  function Prepend(chars: seq<byte>, o: Outcome): Outcome
  {
    match o
    case Closed(rest, at) => Closed(chars + rest, at)
    case Bad(rest, error, at) => Bad(chars + rest, error, at)
  }

  /** The meaning of a section whose bytes from i on are all there are. */
  function Section(b: seq<byte>, i: nat): Outcome
    decreases |b| - i
  {
    match CharAt(b, i)
    case Data(n) => Prepend(b[i..i + n], Section(b, i + n))
    case LineEnd(n) => Prepend([LF], Section(b, i + n))
    case Close => Closed([], i + 3)
    case Fail => Bad([], InvalidToken, i)
    case Need(error) => Bad([], error, i)
  }

  lemma PrependTwo(a: seq<byte>, b: seq<byte>, o: Outcome)
    ensures Prepend(a, Prepend(b, o)) == Prepend(a + b, o)
    ensures Prepend([], o) == o
  {
    assert a + (b + o.chars) == a + b + o.chars;
    assert [] + o.chars == o.chars;
  }

  /** All the bytes there will be start with those received so far. */
  ghost predicate Extends(b: seq<byte>, all: seq<byte>)
  {
    |b| <= |all| && forall k :: 0 <= k < |b| ==> all[k] == b[k]
  }

  /** More bytes do not change a character that could be told without them. */
  lemma CharStable(b: seq<byte>, all: seq<byte>, i: nat)
    requires !CharAt(b, i).Need? && Extends(b, all)
    ensures CharAt(all, i) == CharAt(b, i)
  {
  }

  /** The bytes of b from k on, under positions of their own. */
  ghost predicate IsTail(b: seq<byte>, k: nat, tail: seq<byte>)
  {
    |tail| + k == |b| && forall j: nat, p: nat {:trigger tail[j], b[p]} :: j < |tail| && p == k + j ==> tail[j] == b[p]
  }

  /** Nor do the bytes before it. */
  lemma CharShift(b: seq<byte>, k: nat, tail: seq<byte>, i: nat, p: nat)
    requires IsTail(b, k, tail) && p == k + i
    ensures CharAt(tail, i) == CharAt(b, p)
  {
    assert i < |tail| ==> tail[i] == b[p];
    assert i + 1 < |tail| ==> tail[i + 1] == b[p + 1];
    assert i + 2 < |tail| ==> tail[i + 2] == b[p + 2];
    assert i + 3 < |tail| ==> tail[i + 3] == b[p + 3];
  }

  datatype Kind = Nothing | SectClose | Newline | DataChars | Invalid | PartialCharTok | Partial

  datatype Token = Token(kind: Kind, next: nat)

  /** A character that does not end a run of data. */
  predicate Plain(b: seq<byte>, i: nat)
    requires i < |b|
  {
    && b[i] != RSQB && !IsLineEnd(b[i]) && !IsBad(b[i])
    && i + CharLength(b[i]) <= |b| && (IsLead(b[i]) ==> !InvalidChar(b, i))
  }

  function DataEnd(b: seq<byte>, i: nat): (next: nat)
    requires i <= |b|
    ensures i <= next <= |b|
    decreases |b| - i
  {
    if i < |b| && Plain(b, i) then DataEnd(b, i + CharLength(b[i])) else i
  }

  function CdataToken(b: seq<byte>, i: nat): (t: Token)
    ensures t.kind in {SectClose, Newline, DataChars} ==> i < t.next <= |b|
  {
    match CharAt(b, i)
    case Close => Token(SectClose, i + 3)
    case Fail => Token(Invalid, i)
    case Need(error) =>
      Token(if i >= |b| then Nothing else if error == PartialChar then PartialCharTok else Partial, i)
    case LineEnd(n) => Token(Newline, i + n)
    case Data(n) => Token(DataChars, DataEnd(b, i + n))
  }

  /** Scans the next token of a section. */
  method ScanCdata(b: seq<byte>, start: nat) returns (t: Token)
    ensures t == CdataToken(b, start)
  {
    var ptr := start;
    if ptr >= |b| {
      return Token(Nothing, ptr);
    }
    if b[ptr] == RSQB {
      ptr := ptr + 1;
      if ptr >= |b| {
        return Token(Partial, start);
      }
      if b[ptr] == RSQB {
        ptr := ptr + 1;
        if ptr >= |b| {
          return Token(Partial, start);
        }
        if b[ptr] == GT {
          return Token(SectClose, ptr + 1);
        }
        ptr := ptr - 1;
      }
    } else if b[ptr] == CR {
      ptr := ptr + 1;
      if ptr >= |b| {
        return Token(Partial, start);
      }
      return Token(Newline, if b[ptr] == LF then ptr + 1 else ptr);
    } else if b[ptr] == LF {
      return Token(Newline, ptr + 1);
    } else if IsBad(b[ptr]) {
      return Token(Invalid, ptr);
    } else {
      var n := CharLength(b[ptr]);
      if |b| - ptr < n {
        return Token(PartialCharTok, ptr);
      }
      if n > 1 && InvalidChar(b, ptr) {
        return Token(Invalid, ptr);
      }
      ptr := ptr + n;
    }
    ghost var from := ptr;
    while ptr < |b| && Plain(b, ptr)
      invariant from <= ptr <= |b| && DataEnd(b, from) == DataEnd(b, ptr)
      decreases |b| - ptr
    {
      ptr := ptr + CharLength(b[ptr]);
    }
    return Token(DataChars, ptr);
  }

  lemma SliceJoin(b: seq<byte>, i: nat, j: nat, k: nat)
    requires i <= j <= k <= |b|
    ensures b[i..j] + b[j..k] == b[i..k]
  {
  }

  lemma SameSlice(b: seq<byte>, all: seq<byte>, i: nat, j: nat)
    requires Extends(b, all) && i <= j <= |b|
    ensures all[i..j] == b[i..j]
  {
  }

  /** A character of data stands for its bytes, whatever follows the buffer. */
  lemma CharMeans(b: seq<byte>, all: seq<byte>, i: nat, j: nat)
    requires CharAt(b, i).Data? && j == i + CharAt(b, i).n && Extends(b, all)
    ensures Section(all, i) == Prepend(b[i..j], Section(all, j))
  {
    CharStable(b, all, i);
    SameSlice(b, all, i, j);
    SectionIs(all, i, CharAt(b, i), j, Section(all, j));
  }

  lemma PlainIsData(b: seq<byte>, i: nat)
    requires i < |b| && Plain(b, i)
    ensures CharAt(b, i) == Data(CharLength(b[i]))
  {
  }

  lemma TwoParts(b: seq<byte>, i: nat, j: nat, k: nat, first: Outcome, second: Outcome, rest: Outcome)
    requires i <= j <= k <= |b| && first == Prepend(b[i..j], second) && second == Prepend(b[j..k], rest)
    ensures first == Prepend(b[i..k], rest)
  {
    PrependTwo(b[i..j], b[j..k], rest);
    SliceJoin(b, i, j, k);
  }

  /** A run of data stands for its bytes, whatever follows the buffer. */
  lemma {:induction false} DataMeans(b: seq<byte>, all: seq<byte>, i: nat, end: nat)
    requires i <= |b| && end == DataEnd(b, i) && Extends(b, all)
    ensures Section(all, i) == Prepend(b[i..end], Section(all, end))
    decreases |b| - i
  {
    if i < |b| && Plain(b, i) {
      var j := i + CharLength(b[i]);
      PlainIsData(b, i);
      CharMeans(b, all, i, j);
      DataMeans(b, all, j, end);
      TwoParts(b, i, j, end, Section(all, i), Section(all, j), Section(all, end));
    } else {
      PrependTwo([], [], Section(all, i));
    }
  }

  /** What a token delivers. */
  function Delivers(b: seq<byte>, i: nat, t: Token): seq<byte>
    requires t.kind == DataChars ==> i <= t.next <= |b|
  {
    if t.kind == Newline then [LF] else if t.kind == DataChars then b[i..t.next] else []
  }

  lemma DataTokenMeans(b: seq<byte>, all: seq<byte>, i: nat, j: nat, end: nat)
    requires CharAt(b, i).Data? && j == i + CharAt(b, i).n && end == DataEnd(b, j) && Extends(b, all)
    ensures Section(all, i) == Prepend(b[i..end], Section(all, end))
  {
    CharMeans(b, all, i, j);
    DataMeans(b, all, j, end);
    TwoParts(b, i, j, end, Section(all, i), Section(all, j), Section(all, end));
  }

  lemma TokenMeans(b: seq<byte>, all: seq<byte>, i: nat, t: Token)
    requires t == CdataToken(b, i) && t.kind in {Newline, DataChars} && Extends(b, all)
    ensures Section(all, i) == Prepend(Delivers(b, i, t), Section(all, t.next))
  {
    var c := CharAt(b, i);
    if t.kind == DataChars {
      DataTokenMeans(b, all, i, i + c.n, t.next);
    } else {
      CharStable(b, all, i);
      SectionIs(all, i, c, t.next, Section(all, t.next));
    }
  }

  function Moved(o: Outcome, k: nat): Outcome
  {
    o.(at := o.at + k)
  }

  lemma MovedPrepend(chars: seq<byte>, o: Outcome, k: nat)
    ensures Moved(Prepend(chars, o), k) == Prepend(chars, Moved(o, k))
  {
  }

  lemma TailSlice(b: seq<byte>, k: nat, tail: seq<byte>, i: nat, p: nat, n: nat)
    requires IsTail(b, k, tail) && p == k + i && p + n <= |b|
    ensures tail[i..i + n] == b[p..p + n]
  {
    assert forall j: nat {:trigger tail[j]} :: i <= j < i + n ==> tail[j] == b[k + j];
  }

  lemma ShiftEnd(b: seq<byte>, tail: seq<byte>, k: nat, i: nat, p: nat, c: Char)
    requires CharAt(b, p) == c == CharAt(tail, i) && !c.Data? && !c.LineEnd? && p == k + i
    ensures Section(b, p) == Moved(Section(tail, i), k)
  {
    SectionEnds(b, p, c);
    SectionEnds(tail, i, c);
  }

  lemma SameChars(b: seq<byte>, tail: seq<byte>, k: nat, i: nat, p: nat, c: Char)
    requires IsTail(b, k, tail) && p == k + i && CharAt(b, p) == c == CharAt(tail, i)
    ensures CharsOf(b, p, c) == CharsOf(tail, i, c)
  {
    if c.Data? {
      TailSlice(b, k, tail, i, p, c.n);
    }
  }

  lemma ShiftOne(b: seq<byte>, tail: seq<byte>, k: nat, i: nat, p: nat, c: Char, j: nat, q: nat, rest: Outcome,
                 tailRest: Outcome)
    requires CharAt(b, p) == c == CharAt(tail, i) && (c.Data? || c.LineEnd?) && CharsOf(b, p, c) == CharsOf(tail, i, c)
    requires j == i + c.n && q == p + c.n && rest == Section(b, q) && tailRest == Section(tail, j)
    requires rest == Moved(tailRest, k)
    ensures Section(b, p) == Moved(Section(tail, i), k)
  {
    SectionIs(b, p, c, q, rest);
    SectionIs(tail, i, c, j, tailRest);
    MovedPrepend(CharsOf(b, p, c), tailRest, k);
  }

  /** The bytes before the section only shift positions. */
  lemma {:induction false} SectionShift(b: seq<byte>, k: nat, tail: seq<byte>, i: nat, p: nat)
    requires IsTail(b, k, tail) && p == k + i
    ensures Section(b, p) == Moved(Section(tail, i), k)
    decreases |b| - p
  {
    CharShift(b, k, tail, i, p);
    var c := CharAt(b, p);
    if c.Data? || c.LineEnd? {
      var j, q := i + c.n, p + c.n;
      SectionShift(b, k, tail, j, q);
      SameChars(b, tail, k, i, p, c);
      ShiftOne(b, tail, k, i, p, c, j, q, Section(b, q), Section(tail, j));
    } else {
      ShiftEnd(b, tail, k, i, p, c);
    }
  }

  function EndOf(c: Char, i: nat): Outcome
    requires !c.Data? && !c.LineEnd?
  {
    match c
    case Close => Closed([], i + 3)
    case Fail => Bad([], InvalidToken, i)
    case Need(error) => Bad([], error, i)
  }

  lemma SectionEnds(b: seq<byte>, i: nat, c: Char)
    requires c == CharAt(b, i) && !c.Data? && !c.LineEnd?
    ensures Section(b, i) == EndOf(c, i)
  {
  }

  /** What a character delivers. */
  function CharsOf(b: seq<byte>, i: nat, c: Char): seq<byte>
    requires c.Data? ==> i + c.n <= |b|
  {
    if c.Data? then b[i..i + c.n] else if c.LineEnd? then [LF] else []
  }

  lemma SectionIs(b: seq<byte>, i: nat, c: Char, j: nat, rest: Outcome)
    requires CharAt(b, i) == c && (c.Data? || c.LineEnd?) && j == i + c.n && rest == Section(b, j)
    ensures Section(b, i) == Prepend(CharsOf(b, i, c), rest)
  {
  }

  lemma CharHasNoCr(b: seq<byte>, i: nat)
    requires CharAt(b, i).Data?
    ensures CR !in b[i..i + CharAt(b, i).n]
  {
    var n := CharAt(b, i).n;
    if n > 1 {
      assert forall k :: i <= k < i + n ==> b[k] >= 0x80;
    }
  }

  /** The application sees no carriage return: every line end is a line feed. */
  lemma {:induction false} NoCarriageReturn(b: seq<byte>, i: nat)
    ensures CR !in Section(b, i).chars
    decreases |b| - i
  {
    var c := CharAt(b, i);
    if c.Data? {
      CharHasNoCr(b, i);
    }
    if c.Data? || c.LineEnd? {
      NoCarriageReturn(b, i + c.n);
    }
  }
}
