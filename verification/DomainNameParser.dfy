/** The printable form of a domain name read back into its wire form. */
module DomainNameParser {
  import opened Bytes
  import opened DomainNames

  datatype Parsed = Bad | NoRoom | Good(dn: seq<byte>, isabs: bool)

  datatype Unescaped = BadEscape | Byte(b: byte, next: nat)

  predicate Digit(b: byte)
  {
    ZERO <= b <= ZERO + 9
  }

  /** The byte printed at np, and where the next one starts. A decimal escape has one to three digits. */
  function Unescape(name: seq<byte>, np: nat): (u: Unescaped)
    requires np < |name|
    ensures u.Byte? ==> np < u.next <= |name|
  {
    if name[np] != BACKSLASH then Byte(name[np], np + 1)
    else if np + 1 == |name| then BadEscape
    else if !Digit(name[np + 1]) then Byte(name[np + 1], np + 2)
    else
      var c1 := name[np + 1] - ZERO;
      if !(np + 2 < |name| && Digit(name[np + 2])) then Byte(c1, np + 2)
      else
        var c2 := c1 * 10 + (name[np + 2] - ZERO);
        if !(np + 3 < |name| && Digit(name[np + 3])) then Byte(c2, np + 3)
        else
          var c3 := c2 * 10 + (name[np + 3] - ZERO);
          if c3 > 255 then BadEscape else Byte(c3, np + 4)
  }

  /** The end of the text: closes the label being read, if it is not empty. */
  function Finish(done: seq<byte>, cur: Label): Parsed
  {
    if |cur| > DNS_MAXLABEL then Bad
    else if cur != [] then Good(done + [|cur|] + cur + [0], false)
    else Good(done + [0], true)
  }

  /** The rest of the text from np, after the wire form of the closed labels and the bytes of the open one. */
  function ParseFrom(name: seq<byte>, np: nat, done: seq<byte>, cur: Label, room: nat): Parsed
    requires np <= |name|
    decreases |name| - np
  {
    if np == |name| then Finish(done, cur)
    else if name[np] == DOT then
      if cur == [] then (if np == 0 && |name| == 1 then Finish(done, cur) else Bad)
      else if |cur| > DNS_MAXLABEL then Bad
      else ParseFrom(name, np + 1, done + [|cur|] + cur, [], room)
    else if |done| + 1 + |cur| + 1 >= room then NoRoom
    else
      match Unescape(name, np)
      case BadEscape => Bad
      case Byte(b, next) => ParseFrom(name, next, done, cur + [b], room)
  }

  function Min(a: nat, b: nat): nat
  {
    if a < b then a else b
  }

  /** Index of the first zero byte. */
  function StringLength(name: seq<byte>): (n: nat)
    requires 0 in name
    ensures n < |name| && name[n] == 0 && forall k :: 0 <= k < n ==> name[k] != 0
  {
    if name[0] == 0 then 0 else 1 + StringLength(name[1..])
  }

  /** A length of 0 means that the text ends at its terminator. */
  function Given(name: seq<byte>, namelen: nat): seq<byte>
    requires namelen <= |name| && (namelen == 0 ==> 0 in name)
  {
    name[..if namelen > 0 then namelen else StringLength(name)]
  }

  /** The wire form under construction: closed labels, room for a length byte, the open label. */
  ghost predicate Building(dn: seq<byte>, llab: nat, dp: nat, done: seq<byte>, cur: Label)
  {
    && llab == |done| + 1 && dp == llab + |cur| <= |dn|
    && dn[..llab - 1] == done && dn[llab..dp] == cur
  }

  lemma LabelClosed(dn: seq<byte>, llab: nat, dp: nat, done: seq<byte>, cur: Label)
    requires Building(dn, llab, dp, done, cur) && |cur| <= DNS_MAXLABEL
    ensures dn[llab - 1 := |cur|][..dp] == done + [|cur|] + cur
  {
  }

  /** Puts the length of the open label in front of it. */
  method CloseLabel(dn: array<byte>, llab: nat, dp: nat, c: byte, ghost done: seq<byte>, ghost cur: Label)
    requires Building(dn[..], llab, dp, done, cur) && c == |cur| <= DNS_MAXLABEL
    modifies dn
    ensures dn[..dp] == done + [c] + cur
  {
    LabelClosed(dn[..], llab, dp, done, cur);
    dn[llab - 1] := c;
  }

  /** How parsing can end. */
  datatype Ending = Read | Refused | Full

  /** Closes the last label; a name without a last label is absolute. */
  method CloseName(dn: array<byte>, llab: nat, dp: nat, ghost done: seq<byte>, ghost cur: Label)
    returns (ending: Ending, end: nat, isabs: bool)
    requires Building(dn[..], llab, dp, done, cur) && (cur != [] ==> dp < dn.Length)
    modifies dn
    ensures match Finish(done, cur)
            case Good(bytes, abs) => ending == Read && end == |bytes| <= dp + 1 && end <= dn.Length
                && dn[..end] == bytes && isabs == abs
            case Bad => ending == Refused
            case NoRoom => ending == Full
    ensures ending == Read ==> end == if cur == [] then dp else dp + 1
  {
    var c := dp - llab;
    end, isabs := dp, false;
    if c > DNS_MAXLABEL {
      return Refused, end, isabs;
    }
    CloseLabel(dn, llab, dp, c, done, cur);
    if c != 0 {
      dn[dp] := 0;
      end := dp + 1;
      assert dn[..end] == dn[..dp] + [0];
    } else {
      assert done + [0] + [] == done + [0];
      isabs := true;
    }
    ending := Read;
  }

  method ParseInto(name: seq<byte>, dn: array<byte>, room: nat) returns (ending: Ending, end: nat, isabs: bool)
    requires 0 < room <= dn.Length
    modifies dn
    ensures match ParseFrom(name, 0, [], [], room)
            case Good(bytes, abs) => ending == Read && end == |bytes| <= room && dn[..end] == bytes && isabs == abs
            case Bad => ending == Refused
            case NoRoom => ending == Full
  {
    var np: nat, dp: nat, llab: nat := 0, 1, 1;
    ghost var done: seq<byte>, cur: Label := [], [];
    end, isabs := 0, false;
    while np < |name|
      invariant np <= |name| && dp <= room && (cur != [] ==> dp < room)
      invariant Building(dn[..], llab, dp, done, cur)
      invariant ParseFrom(name, 0, [], [], room) == ParseFrom(name, np, done, cur, room)
      decreases |name| - np
    {
      if name[np] == DOT {
        var c := dp - llab;
        if c == 0 {
          if np == 0 && np + 1 == |name| {
            np := np + 1;
            break;
          }
          return Refused, end, isabs;
        }
        if c > DNS_MAXLABEL {
          return Refused, end, isabs;
        }
        CloseLabel(dn, llab, dp, c, done, cur);
        done, cur := done + [c] + cur, [];
        dp := dp + 1;
        llab := dp;
        np := np + 1;
      } else {
        if dp >= room - 1 {
          return Full, end, isabs;
        }
        var u := Unescape(name, np);
        if u.BadEscape? {
          return Refused, end, isabs;
        }
        np := u.next;
        dn[dp] := u.b;
        cur := cur + [u.b];
        dp := dp + 1;
      }
    }
    ending, end, isabs := CloseName(dn, llab, dp, done, cur);
  }

  /**
   Reads the text into the buffer and gives the code that the parse calls for: the length of the wire
   form, -1 for bad text, or 0 where a larger buffer might help.
   */
  method TextToName(text: seq<byte>, namelen: nat, dn: array<byte>, dnsiz: nat) returns (r: int, isabs: bool)
    requires namelen <= |text| && (namelen == 0 ==> 0 in text) && dnsiz <= dn.Length
    modifies dn
    ensures dnsiz == 0 ==> r == 0
    ensures dnsiz > 0 ==>
              match ParseFrom(Given(text, namelen), 0, [], [], Min(dnsiz, 255))
              case Good(bytes, abs) => r == |bytes| <= Min(dnsiz, 255) && dn[..r] == bytes && isabs == abs
              case Bad => r == -1
              case NoRoom => r == if dnsiz >= 255 then -1 else 0
  {
    if dnsiz == 0 {
      return 0, false;
    }
    var ending, end, abs := ParseInto(Given(text, namelen), dn, Min(dnsiz, DNS_MAXDN));
    match ending {
      case Read => return end, abs;
      case Refused => return -1, false;
      case Full => return if dnsiz >= DNS_MAXDN then -1 else 0, false;
    }
  }

  /** A printed byte is read back, and reading stops right after it. */
  lemma UnescapeEscape(name: seq<byte>, np: nat, b: byte)
    requires np + |Escape(b)| <= |name| && name[np..np + |Escape(b)|] == Escape(b)
    ensures np < |name| && name[np] != DOT && Unescape(name, np) == Byte(b, np + |Escape(b)|)
  {
    var e := Escape(b);
    assert forall k :: 0 <= k < |e| ==> name[np + k] == name[np..np + |e|][k] == e[k];
  }

  /** One printed byte is read into the open label. */
  lemma ParseByte(name: seq<byte>, np: nat, done: seq<byte>, cur: Label, room: nat, b: byte)
    requires np + |Escape(b)| <= |name| && name[np..np + |Escape(b)|] == Escape(b)
    requires |done| + 1 + |cur| + 1 < room
    ensures ParseFrom(name, np, done, cur, room) == ParseFrom(name, np + |Escape(b)|, done, cur + [b], room)
  {
    UnescapeEscape(name, np, b);
  }

  /** A dot after a nonempty label closes it. */
  lemma ParseLabelEnd(name: seq<byte>, np: nat, done: seq<byte>, cur: Label, room: nat)
    requires np < |name| && name[np] == DOT && 1 <= |cur| <= DNS_MAXLABEL
    ensures ParseFrom(name, np, done, cur, room) == ParseFrom(name, np + 1, done + [|cur|] + cur, [], room)
  {
  }

  /** Where the text of byte i of label k lies in the text of the name. */
  lemma TextAt(labels: seq<Label>, k: nat, i: nat)
    requires k < |labels| && i < |labels[k]|
    ensures var np := |TextUpTo(labels, k, i)|;
            var next := |TextUpTo(labels, k, i + 1)|;
            && next == np + |Escape(labels[k][i])| <= |NameText(labels)|
            && NameText(labels)[np..next] == Escape(labels[k][i])
  {
    TextUpToPrefix(labels, k, i + 1);
    TextUpToStep(labels, k, i);
    var next := TextUpTo(labels, k, i + 1);
    assert NameText(labels)[..|next|] == next;
  }

  /** A byte of a name that fits is read with room to spare. */
  lemma RoomAt(labels: seq<Label>, room: nat, k: nat, i: nat)
    requires ValidLabels(labels) && |Encode(labels)| <= room && k < |labels| && i < |labels[k]|
    ensures |Wire(labels[..k])| + 1 + i + 1 < room
  {
    WireAt(labels, k);
  }

  /** After a label that is not the last comes the dot, and then the next label. */
  lemma ParseDot(labels: seq<Label>, k: nat)
    requires k + 1 < |labels|
    ensures var np := |TextUpTo(labels, k, |labels[k]|)|;
            np < |NameText(labels)| && NameText(labels)[np] == DOT && np + 1 == |TextUpTo(labels, k + 1, 0)|
  {
    TextUpToPrefix(labels, k + 1, 0);
    TextUpToEnd(labels, k, |labels[k]|);
    TextStart(labels, k + 1);
    var next := TextUpTo(labels, k + 1, 0);
    assert NameText(labels)[..|next|] == next;
  }

  /** Reading the printed name from np on, after the given closed and open labels, restores the name. */
  ghost predicate ReadsAt(labels: seq<Label>, room: nat, np: nat, done: seq<byte>, cur: Label)
    requires ValidLabels(labels)
  {
    np <= |NameText(labels)| && ParseFrom(NameText(labels), np, done, cur, room) == Good(Encode(labels), false)
  }

  ghost predicate ReadsFrom(labels: seq<Label>, room: nat, k: nat, i: nat)
    requires ValidLabels(labels) && k < |labels| && i <= |labels[k]|
  {
    ReadsAt(labels, room, |TextUpTo(labels, k, i)|, Wire(labels[..k]), labels[k][..i])
  }

  lemma ReadsAtByte(labels: seq<Label>, room: nat, np: nat, next: nat, done: seq<byte>, cur: Label, more: Label,
                    b: byte)
    requires ValidLabels(labels) && ReadsAt(labels, room, next, done, more)
    requires next == np + |Escape(b)| && more == cur + [b]
    requires NameText(labels)[np..next] == Escape(b) && |done| + 1 + |cur| + 1 < room
    ensures ReadsAt(labels, room, np, done, cur)
  {
    ParseByte(NameText(labels), np, done, cur, room, b);
  }

  /** The byte at i of a label is read from its escape, with room for it. */
  lemma ByteAt(labels: seq<Label>, room: nat, k: nat, i: nat)
    requires ValidLabels(labels) && |Encode(labels)| <= room && k < |labels| && i < |labels[k]|
    ensures var np, next := |TextUpTo(labels, k, i)|, |TextUpTo(labels, k, i + 1)|;
            && next == np + |Escape(labels[k][i])| <= |NameText(labels)|
            && NameText(labels)[np..next] == Escape(labels[k][i])
            && |Wire(labels[..k])| + 1 + i + 1 < room
  {
    TextAt(labels, k, i);
    RoomAt(labels, room, k, i);
  }

  lemma ReadsByte(labels: seq<Label>, room: nat, k: nat, i: nat)
    requires ValidLabels(labels) && |Encode(labels)| <= room && k < |labels| && i < |labels[k]|
    requires ReadsFrom(labels, room, k, i + 1)
    ensures ReadsFrom(labels, room, k, i)
  {
    ByteAt(labels, room, k, i);
    TakeOneMore(labels[k], i);
    ReadsAtByte(labels, room, |TextUpTo(labels, k, i)|, |TextUpTo(labels, k, i + 1)|, Wire(labels[..k]), labels[k][..i],
                labels[k][..i + 1], labels[k][i]);
  }

  lemma ReadsAtDot(labels: seq<Label>, room: nat, np: nat, done: seq<byte>, cur: Label)
    requires ValidLabels(labels) && 1 <= |cur| <= DNS_MAXLABEL
    requires ReadsAt(labels, room, np + 1, done + [|cur|] + cur, [])
    requires NameText(labels)[np] == DOT
    ensures ReadsAt(labels, room, np, done, cur)
  {
    ParseLabelEnd(NameText(labels), np, done, cur, room);
  }

  lemma WholeLabel(labels: seq<Label>, k: nat)
    requires ValidLabels(labels) && k < |labels|
    ensures 1 <= |labels[k]| <= DNS_MAXLABEL && labels[k][..|labels[k]|] == labels[k] && labels[k][..0] == []
    ensures Wire(labels[..k + 1]) == Wire(labels[..k]) + [|labels[k]|] + labels[k]
  {
    WireAt(labels, k);
  }

  lemma ReadsLabelEnd(labels: seq<Label>, room: nat, k: nat)
    requires ValidLabels(labels) && k + 1 < |labels| && ReadsFrom(labels, room, k + 1, 0)
    ensures ReadsFrom(labels, room, k, |labels[k]|)
  {
    WholeLabel(labels, k);
    WholeLabel(labels, k + 1);
    ParseDot(labels, k);
    ReadsAtDot(labels, room, |TextUpTo(labels, k, |labels[k]|)|, Wire(labels[..k]), labels[k]);
  }

  lemma TakeOneMore(lab: Label, i: nat)
    requires i < |lab|
    ensures lab[..i] + [lab[i]] == lab[..i + 1] && |lab[..i]| == i
  {
  }

  lemma ReadsLast(labels: seq<Label>, room: nat)
    requires ValidLabels(labels) && labels != []
    ensures ReadsFrom(labels, room, |labels| - 1, |labels[|labels| - 1]|)
  {
    var k := |labels| - 1;
    TextUpToPrefix(labels, k, |labels[k]|);
    WireAt(labels, k);
    assert labels[k][..|labels[k]|] == labels[k];
    assert labels[..k + 1] == labels;
  }

  lemma {:induction false} ParseText(labels: seq<Label>, room: nat, k: nat, i: nat)
    requires ValidLabels(labels) && |Encode(labels)| <= room && k < |labels| && i <= |labels[k]|
    ensures ReadsFrom(labels, room, k, i)
    decreases |labels| - k, |labels[k]| - i
  {
    if i < |labels[k]| {
      ParseText(labels, room, k, i + 1);
      ReadsByte(labels, room, k, i);
    } else if k + 1 < |labels| {
      ParseText(labels, room, k + 1, 0);
      ReadsLabelEnd(labels, room, k);
    } else {
      ReadsLast(labels, room);
    }
  }

  /** Printing a name that fits and reading the text back gives the same bytes. */
  lemma ParsePrinted(labels: seq<Label>, room: nat)
    requires ValidLabels(labels) && |Encode(labels)| <= room
    ensures ParseFrom(NameText(labels), 0, [], [], room) == Good(Encode(labels), labels == [])
  {
    if labels != [] {
      ParseText(labels, room, 0, 0);
      assert labels[..0] == [] && labels[0][..0] == [];
    }
  }

  lemma {:induction false} LabelTextNoZero(lab: Label)
    ensures 0 !in LabelText(lab)
  {
    if lab != [] {
      LabelTextNoZero(lab[..|lab| - 1]);
    }
  }

  lemma {:induction false} NameTextNoZero(labels: seq<Label>)
    ensures 0 !in NameText(labels)
  {
    if labels != [] {
      NameTextNoZero(labels[..|labels| - 1]);
      LabelTextNoZero(labels[|labels| - 1]);
    }
  }

  /** The text is recovered from a buffer that holds it with its terminator, whatever follows. */
  lemma GivenText(labels: seq<Label>, text: seq<byte>)
    requires Text(labels) <= text
    ensures 0 in text && Given(text, 0) == NameText(labels)
  {
    NameTextNoZero(labels);
    var n := |NameText(labels)|;
    assert text[..n + 1] == Text(labels);
    assert text[n] == 0 && text[..n] == NameText(labels);
    assert forall k :: 0 <= k < n ==> text[k] == NameText(labels)[k];
  }

  /** A name that fits, printed into a buffer and read back from it, is restored byte for byte. */
  method RoundTrip(dn: seq<byte>, name: array<byte>, back: array<byte>, ghost labels: seq<Label>) returns (r: int)
    requires ValidName(labels) && Encode(labels) <= dn && name != back
    requires name.Length >= 1004 && back.Length >= |Encode(labels)|
    modifies name, back
    ensures r == |Encode(labels)| && back[..r] == Encode(labels)
  {
    TextAtMost1004(labels);
    var size := NameToText(dn, name, name.Length, labels);
    assert Text(labels) <= name[..];
    GivenText(labels, name[..]);
    ParsePrinted(labels, Min(back.Length, DNS_MAXDN));
    var isabs;
    r, isabs := TextToName(name[..], 0, back, back.Length);
  }
}
