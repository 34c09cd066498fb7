/** Incremental parsing of a CDATA section: the outcome does not depend on how the input is cut into buffers. */
module CdataFeeder {
  import opened Wrappers
  import opened Bytes
  import opened XmlBytes
  import opened CdataSection

  /** The first characters of the section are known, whatever follows the bytes received so far. */
  ghost predicate Leads(b: seq<byte>, chars: seq<byte>, i: nat)
  {
    i <= |b| && forall all {:trigger Extends(b, all)} :: Extends(b, all) ==>
        Section(all, 0) == Prepend(chars, Section(all, i))
  }

  lemma LeadsToken(b: seq<byte>, chars: seq<byte>, i: nat, t: Token)
    requires Leads(b, chars, i) && t == CdataToken(b, i) && t.kind in {Newline, DataChars}
    ensures Leads(b, chars + Delivers(b, i, t), t.next)
  {
    forall all | Extends(b, all)
      ensures Section(all, 0) == Prepend(chars + Delivers(b, i, t), Section(all, t.next))
    {
      TokenMeans(b, all, i, t);
      PrependTwo(chars, Delivers(b, i, t), Section(all, t.next));
    }
  }

  /** The outcome is settled, whatever follows. */
  ghost predicate Settled(b: seq<byte>, o: Outcome)
  {
    forall all {:trigger Extends(b, all)} :: Extends(b, all) ==> Section(all, 0) == o
  }

  lemma SettledToken(b: seq<byte>, chars: seq<byte>, i: nat, t: Token)
    requires Leads(b, chars, i) && t == CdataToken(b, i)
    ensures t.kind == SectClose ==> Settled(b, Closed(chars, t.next))
    ensures t.kind == Invalid ==> Settled(b, Bad(chars, InvalidToken, t.next))
  {
    if t.kind in {SectClose, Invalid} {
      forall all | Extends(b, all)
        ensures Section(all, 0) == if t.kind == SectClose then Closed(chars, t.next)
                 else Bad(chars, InvalidToken, t.next)
      {
        CharStable(b, all, i);
        SectionEnds(all, i, CharAt(b, i));
        assert chars + [] == chars;
      }
    }
  }

  lemma LastToken(b: seq<byte>, chars: seq<byte>, i: nat, t: Token)
    requires Leads(b, chars, i) && t == CdataToken(b, i) && t.kind in {Nothing, Partial, PartialCharTok}
    ensures Section(b, 0) == Bad(chars, if t.kind == PartialCharTok then PartialChar else Unclosed, i)
  {
    assert Extends(b, b);
    SectionEnds(b, i, CharAt(b, i));
    assert chars + [] == chars;
  }

  /** Nothing known yet. */
  lemma LeadsStart(b: seq<byte>)
    ensures Leads(b, [], 0)
  {
    forall all | Extends(b, all)
      ensures Section(all, 0) == Prepend([], Section(all, 0))
    {
      PrependTwo([], [], Section(all, 0));
    }
  }

  /**
   One call with a buffer: tokens are delivered until the section ends, the bytes are in error, or, while more
   may come, the rest cannot be told yet.
   */
  method DoCdataSection(b: seq<byte>, haveMore: bool) returns (chars: seq<byte>, outcome: Option<Outcome>, next: nat)
    ensures outcome.None? ==> haveMore && Leads(b, chars, next)
    ensures outcome.Some? ==> outcome.value.chars == chars
    ensures outcome.Some? && haveMore ==> Settled(b, outcome.value)
    ensures outcome.Some? && !haveMore ==> Section(b, 0) == outcome.value
  {
    var s := 0;
    chars, outcome := [], None;
    LeadsStart(b);
    while true
      invariant s <= |b| && Leads(b, chars, s)
      decreases |b| - s
    {
      var t := ScanCdata(b, s);
      next := t.next;
      SettledToken(b, chars, s, t);
      match t.kind {
        case SectClose =>
          assert Extends(b, b);
          return chars, Some(Closed(chars, next)), next;
        case Invalid =>
          assert Extends(b, b);
          return chars, Some(Bad(chars, InvalidToken, next)), next;
        case PartialCharTok =>
          LastToken(b, chars, s, t);
          return chars, if haveMore then None else Some(Bad(chars, PartialChar, s)), s;
        case Partial =>
          LastToken(b, chars, s, t);
          return chars, if haveMore then None else Some(Bad(chars, Unclosed, s)), s;
        case Nothing =>
          LastToken(b, chars, s, t);
          return chars, if haveMore then None else Some(Bad(chars, Unclosed, s)), s;
        case Newline =>
          LeadsToken(b, chars, s, t);
          chars := chars + [LF];
        case DataChars =>
          LeadsToken(b, chars, s, t);
          chars := chars + b[s..next];
      }
      s := next;
    }
  }

  /** What a buffer tells about the section, given what was known up to its start. */
  lemma BufferTells(b: seq<byte>, all: seq<byte>, tail: seq<byte>, chars: seq<byte>, i: nat)
    requires Leads(b, chars, i) && Extends(b, all) && IsTail(all, i, tail)
    ensures Section(all, 0) == Prepend(chars, Moved(Section(tail, 0), i))
  {
    SectionShift(all, i, tail, 0, i);
  }

  lemma TailExtends(received: seq<byte>, i: nat, buffer: seq<byte>, all: seq<byte>) returns (tail: seq<byte>)
    requires IsTail(received, i, buffer) && Extends(received, all)
    ensures IsTail(all, i, tail) && Extends(buffer, tail)
    ensures all == received ==> tail == buffer
  {
    tail := all[i..];
    forall j | 0 <= j < |buffer|
      ensures tail[j] == buffer[j]
    {
      assert buffer[j] == received[i + j];
    }
  }

  lemma LeadsFurther(b: seq<byte>, received: seq<byte>, buffer: seq<byte>, chars: seq<byte>, i: nat, out: seq<byte>,
                     next: nat, p: nat)
    requires Leads(b, chars, i) && Extends(b, received) && IsTail(received, i, buffer) && Leads(buffer, out, next)
    requires p == i + next
    ensures Leads(received, chars + out, p)
  {
    forall all | Extends(received, all)
      ensures Section(all, 0) == Prepend(chars + out, Section(all, p))
    {
      assert Extends(b, all);
      var tail := TailExtends(received, i, buffer, all);
      BufferTells(b, all, tail, chars, i);
      SectionShift(all, i, tail, next, p);
      MovedPrepend(out, Section(tail, next), i);
      PrependTwo(chars, out, Section(all, p));
    }
  }

  lemma SettledFurther(b: seq<byte>, received: seq<byte>, buffer: seq<byte>, chars: seq<byte>, i: nat, o: Outcome)
    requires Leads(b, chars, i) && Extends(b, received) && IsTail(received, i, buffer)
    ensures Settled(buffer, o) ==> Settled(received, Prepend(chars, Moved(o, i)))
    ensures Section(buffer, 0) == o ==> Section(received, 0) == Prepend(chars, Moved(o, i))
  {
    if Settled(buffer, o) {
      forall all | Extends(received, all)
        ensures Section(all, 0) == Prepend(chars, Moved(o, i))
      {
        assert Extends(b, all);
        var tail := TailExtends(received, i, buffer, all);
        BufferTells(b, all, tail, chars, i);
      }
    }
    BufferTells(b, received, buffer, chars, i);
  }

  /** The bytes of some chunks one after the other. */
  ghost function Joined(chunks: seq<seq<byte>>): seq<byte>
  {
    if chunks == [] then [] else Joined(chunks[..|chunks| - 1]) + chunks[|chunks| - 1]
  }

  /** The parser inside a section: bytes not yet used, where they start, and what the handler has been given. */
  class CdataParser {
    var pending: seq<byte>
    var consumed: nat
    var delivered: seq<byte>
    ghost var received: seq<byte>

    ghost predicate Valid()
      reads this
    {
      IsTail(received, consumed, pending) && Leads(received, delivered, consumed)
    }

    constructor ()
      ensures Valid() && received == [] && delivered == []
    {
      pending, consumed, delivered, received := [], 0, [], [];
      LeadsStart([]);
    }

    /** Takes one more chunk of input; an outcome reached before the last one does not depend on the rest. */
    method Parse(chunk: seq<byte>, isFinal: bool) returns (outcome: Option<Outcome>)
      requires Valid()
      modifies this
      ensures received == old(received) + chunk
      ensures outcome.None? ==> !isFinal && Valid()
      ensures outcome.Some? ==> outcome.value.chars == delivered
      ensures outcome.Some? && isFinal ==> Section(received, 0) == outcome.value
      ensures outcome.Some? && !isFinal ==> Settled(received, outcome.value)
    {
      var buffer := pending + chunk;
      BufferIs(received, chunk, consumed, pending);
      ghost var before := received;
      received := received + chunk;
      var chars, local, next := DoCdataSection(buffer, !isFinal);
      if local.None? {
        LeadsFurther(before, received, buffer, delivered, consumed, chars, next, consumed + next);
        TailAfter(received, consumed, buffer, next);
        delivered, consumed, pending := delivered + chars, consumed + next, buffer[next..];
        return None;
      }
      SettledFurther(before, received, buffer, delivered, consumed, local.value);
      outcome := Some(Prepend(delivered, Moved(local.value, consumed)));
      delivered := delivered + chars;
    }
  }

  lemma BufferIs(received: seq<byte>, chunk: seq<byte>, consumed: nat, pending: seq<byte>)
    requires IsTail(received, consumed, pending)
    ensures Extends(received, received + chunk) && IsTail(received + chunk, consumed, pending + chunk)
  {
  }

  lemma TailAfter(received: seq<byte>, consumed: nat, buffer: seq<byte>, next: nat)
    requires IsTail(received, consumed, buffer) && next <= |buffer|
    ensures IsTail(received, consumed + next, buffer[next..])
  {
    assert forall j: nat :: j < |buffer| - next ==> buffer[next..][j] == buffer[next + j];
  }

  /**
   However the bytes of a section are cut into chunks, the characters and the outcome are those of all of them
   together.
   */
  method ParseAll(chunks: seq<seq<byte>>) returns (outcome: Outcome)
    requires chunks != []
    ensures outcome == Section(Joined(chunks), 0)
  {
    var parser := new CdataParser();
    var i := 0;
    while i < |chunks|
      invariant i < |chunks| && parser.Valid() && fresh(parser) && parser.received == Joined(chunks[..i])
    {
      assert chunks[..i + 1][..i] == chunks[..i];
      var o := parser.Parse(chunks[i], i + 1 == |chunks|);
      i := i + 1;
      if o.Some? {
        ghost var more := JoinedFrom(chunks, i);
        assert chunks[..|chunks|] == chunks;
        assert Extends(parser.received, Joined(chunks));
        return o.value;
      }
    }
  }

  lemma {:induction false} JoinedFrom(chunks: seq<seq<byte>>, i: nat) returns (more: seq<byte>)
    requires i <= |chunks|
    ensures Joined(chunks) == Joined(chunks[..i]) + more
    decreases chunks
  {
    if i == |chunks| {
      more := [];
      assert chunks[..i] == chunks;
    } else {
      var before := chunks[..|chunks| - 1];
      more := JoinedFrom(before, i);
      assert before[..i] == chunks[..i];
      more := more + chunks[|chunks| - 1];
    }
  }
}
