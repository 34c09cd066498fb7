/** Domain names: the wire form, its printable form with escapes, and the way back. */
module DomainNames {
  import opened Bytes

  const DNS_MAXDN := 255
  const DNS_MAXLABEL := 63
  const DNS_MAXNAME := 1024

  const DOT: byte := 46
  const BACKSLASH: byte := 92
  const ZERO: byte := 48

  type Label = seq<byte>

  /** Labels of 1 to 63 bytes. */
  ghost predicate ValidLabels(labels: seq<Label>)
  {
    forall k :: 0 <= k < |labels| ==> 1 <= |labels[k]| <= 63
  }

  /** Wire form of the labels without the terminator: each label after its length byte. */
  ghost function Wire(labels: seq<Label>): (w: seq<byte>)
    requires ValidLabels(labels)
  {
    if labels == [] then [] else Wire(labels[..|labels| - 1]) + [|labels[|labels| - 1]|] + labels[|labels| - 1]
  }

  ghost function Encode(labels: seq<Label>): (dn: seq<byte>)
    requires ValidLabels(labels)
    ensures |dn| > 0
  {
    Wire(labels) + [0]
  }

  /** A name that fits: valid labels and at most 255 bytes with the terminator. */
  ghost predicate ValidName(labels: seq<Label>)
  {
    ValidLabels(labels) && |Encode(labels)| <= DNS_MAXDN
  }

  predicate Special(b: byte)
  {
    b == DOT || b == BACKSLASH || b == 34 || b == 59 || b == 64 || b == 36
  }

  predicate Plain(b: byte)
  {
    0x20 < b < 0x7f
  }

  /** How one byte of a label is printed. */
  function Escape(b: byte): (t: seq<byte>)
    ensures 1 <= |t| <= 4
  {
    if Special(b) then [BACKSLASH, b]
    else if !Plain(b) then [BACKSLASH, ZERO + b / 100, ZERO + b % 100 / 10, ZERO + b % 10]
    else [b]
  }

  ghost function LabelText(lab: Label): (t: seq<byte>)
    ensures |lab| <= |t| <= 4 * |lab|
  {
    if lab == [] then [] else LabelText(lab[..|lab| - 1]) + Escape(lab[|lab| - 1])
  }

  /** The labels printed with dots between them. */
  ghost function NameText(labels: seq<Label>): seq<byte>
  {
    if labels == [] then []
    else NameText(labels[..|labels| - 1]) + (if |labels| == 1 then [] else [DOT]) + LabelText(labels[|labels| - 1])
  }

  /** The printed name with its string terminator. */
  ghost function Text(labels: seq<Label>): seq<byte>
  {
    NameText(labels) + [0]
  }

  lemma {:induction false} WirePrefix(labels: seq<Label>, k: nat)
    requires ValidLabels(labels) && k <= |labels|
    ensures Wire(labels[..k]) <= Wire(labels)
  {
    if k < |labels| {
      WirePrefix(labels[..|labels| - 1], k);
      assert labels[..|labels| - 1][..k] == labels[..k];
    } else {
      assert labels[..k] == labels;
    }
  }

  /** Where label k lies in the wire form. */
  lemma WireAt(labels: seq<Label>, k: nat)
    requires ValidLabels(labels) && k < |labels|
    ensures var p := |Wire(labels[..k])|;
            && Wire(labels[..k + 1]) == Wire(labels[..k]) + [|labels[k]|] + labels[k]
            && p + 1 + |labels[k]| <= |Wire(labels)|
            && Wire(labels)[p] == |labels[k]|
            && Wire(labels)[p + 1..p + 1 + |labels[k]|] == labels[k]
  {
    assert labels[..k + 1][..k] == labels[..k];
    WirePrefix(labels, k + 1);
    var w := Wire(labels[..k]) + [|labels[k]|] + labels[k];
    assert w <= Wire(labels);
    assert Wire(labels)[..|w|] == w;
  }

  lemma {:induction false} NameTextPrefix(labels: seq<Label>, k: nat)
    requires k <= |labels|
    ensures NameText(labels[..k]) <= NameText(labels)
  {
    if k < |labels| {
      NameTextPrefix(labels[..|labels| - 1], k);
      assert labels[..|labels| - 1][..k] == labels[..k];
    } else {
      assert labels[..k] == labels;
    }
  }

  lemma {:induction false} LabelTextPrefix(lab: Label, i: nat)
    requires i <= |lab|
    ensures LabelText(lab[..i]) <= LabelText(lab)
  {
    if i < |lab| {
      LabelTextPrefix(lab[..|lab| - 1], i);
      assert lab[..|lab| - 1][..i] == lab[..i];
    } else {
      assert lab[..i] == lab;
    }
  }

  /** The text up to byte i of label k is a prefix of the whole name's text. */
  ghost function TextUpTo(labels: seq<Label>, k: nat, i: nat): seq<byte>
    requires k < |labels| && i <= |labels[k]|
  {
    NameText(labels[..k]) + (if k == 0 then [] else [DOT]) + LabelText(labels[k][..i])
  }

  lemma TextStart(labels: seq<Label>, k: nat)
    requires k < |labels|
    ensures TextUpTo(labels, k, 0) == NameText(labels[..k]) + if k == 0 then [] else [DOT]
  {
    assert labels[k][..0] == [];
  }

  lemma TextUpToStep(labels: seq<Label>, k: nat, i: nat)
    requires k < |labels| && i < |labels[k]|
    ensures TextUpTo(labels, k, i + 1) == TextUpTo(labels, k, i) + Escape(labels[k][i])
  {
    assert labels[k][..i + 1][..i] == labels[k][..i];
  }

  lemma NameTextMore(labels: seq<Label>, k: nat)
    requires k < |labels|
    ensures NameText(labels[..k]) + (if k == 0 then [] else [DOT]) + LabelText(labels[k]) == NameText(labels[..k + 1])
  {
    assert labels[..k + 1][..k] == labels[..k];
  }

  lemma TextUpToPrefix(labels: seq<Label>, k: nat, i: nat)
    requires k < |labels| && i <= |labels[k]|
    ensures TextUpTo(labels, k, i) <= NameText(labels)
  {
    LabelTextPrefix(labels[k], i);
    NameTextMore(labels, k);
    NameTextPrefix(labels, k + 1);
    PrefixInside(NameText(labels[..k]) + (if k == 0 then [] else [DOT]), LabelText(labels[k][..i]),
        LabelText(labels[k]),
                 NameText(labels));
  }

  lemma TextUpToSize(labels: seq<Label>, k: nat, i: nat)
    requires k < |labels| && i <= |labels[k]|
    ensures |TextUpTo(labels, k, i)| < |Text(labels)|
  {
    TextUpToPrefix(labels, k, i);
  }

  lemma TextUpToEnd(labels: seq<Label>, k: nat, i: nat)
    requires k < |labels| && i == |labels[k]|
    ensures TextUpTo(labels, k, i) == NameText(labels[..k + 1])
  {
    assert labels[k][..i] == labels[k];
    NameTextMore(labels, k);
  }

  lemma PrefixInside(a: seq<byte>, b: seq<byte>, c: seq<byte>, whole: seq<byte>)
    requires b <= c && a + c <= whole
    ensures a + b <= whole
  {
    assert whole[..|a + c|] == a + c;
    assert c[..|b|] == b;
  }

  lemma SliceAt(dn: seq<byte>, start: nat, end: nat, lab: Label, pos: nat)
    requires start <= pos < end <= |dn| && dn[start..end] == lab
    ensures pos - start < |lab| && dn[pos] == lab[pos - start]
  {
  }

  lemma NextText(dn: seq<byte>, start: nat, end: nat, pos: nat, labels: seq<Label>, k: nat, text: seq<byte>)
    returns (more: seq<byte>)
    requires k < |labels| && start <= pos < end <= |dn| && dn[start..end] == labels[k]
    requires text == TextUpTo(labels, k, pos - start)
    ensures pos - start < |labels[k]| && more == text + Escape(dn[pos]) == TextUpTo(labels, k, pos + 1 - start)
  {
    SliceAt(dn, start, end, labels[k], pos);
    TextUpToStep(labels, k, pos - start);
    more := text + Escape(dn[pos]);
  }

  /** Position pos is that of label k, or of the terminator after the last label. */
  ghost predicate AtLabel(dn: seq<byte>, labels: seq<Label>, k: nat, pos: nat)
  {
    ValidLabels(labels) && Encode(labels) <= dn && k <= |labels| && pos == |Wire(labels[..k])|
  }

  lemma AtStart(dn: seq<byte>, labels: seq<Label>)
    requires ValidLabels(labels) && Encode(labels) <= dn
    ensures AtLabel(dn, labels, 0, 0) && labels[..0] == []
  {
  }

  /** What stands there: the length and the bytes of the label, or zero. */
  lemma LabelHere(dn: seq<byte>, labels: seq<Label>, k: nat, pos: nat)
    requires AtLabel(dn, labels, k, pos)
    ensures pos < |dn| && (dn[pos] == 0 <==> k == |labels|)
    ensures k < |labels| ==>
             dn[pos] == |labels[k]| && pos + 1 + dn[pos] <= |dn| && dn[pos + 1..pos + 1 + dn[pos]] == labels[k]
    ensures k < |labels| ==> AtLabel(dn, labels, k + 1, pos + 1 + dn[pos])
    ensures k == |labels| ==> labels[..k] == labels
  {
    assert dn[..|Encode(labels)|] == Encode(labels);
    if k < |labels| {
      WireAt(labels, k);
      assert dn[pos] == Encode(labels)[pos] == Wire(labels)[pos];
      assert dn[pos + 1..pos + 1 + |labels[k]|] == Wire(labels)[pos + 1..pos + 1 + |labels[k]|];
    } else {
      assert labels[..k] == labels;
      assert dn[pos] == Encode(labels)[pos] == 0;
    }
  }

  /** Length of the wire form in bytes, terminator included. */
  method NameLength(dn: seq<byte>, ghost labels: seq<Label>) returns (length: nat)
    requires ValidLabels(labels) && Encode(labels) <= dn
    ensures length == |Encode(labels)|
  {
    var d: nat := 0;
    ghost var k := 0;
    AtStart(dn, labels);
    LabelHere(dn, labels, 0, 0);
    while dn[d] != 0
      invariant AtLabel(dn, labels, k, d) && d < |dn| && (dn[d] == 0 <==> k == |labels|)
      decreases |labels| - k
    {
      LabelHere(dn, labels, k, d);
      d := d + 1 + dn[d];
      k := k + 1;
      LabelHere(dn, labels, k, d);
    }
    LabelHere(dn, labels, k, d);
    length := d + 1;
  }

  /** Adds up the printed size of label k, whose first byte is at start. */
  method LabelTextSize(dn: seq<byte>, start: nat, end: nat, size0: nat, ghost labels: seq<Label>, ghost k: nat)
    returns (size: nat)
    requires k < |labels| && start <= end <= |dn| && dn[start..end] == labels[k]
    requires size0 == |TextUpTo(labels, k, 0)|
    ensures size == |NameText(labels[..k + 1])|
  {
    size := size0;
    ghost var text := TextUpTo(labels, k, 0);
    for pos := start to end
      invariant text == TextUpTo(labels, k, pos - start) && size == |text|
    {
      text := NextText(dn, start, end, pos, labels, k, text);
      size := size + |Escape(dn[pos])|;
    }
    TextUpToEnd(labels, k, end - start);
  }

  /** Size of the printed form with its terminator; 0 stands for a name that is too long. */
  method NameTextSize(dn: seq<byte>, ghost labels: seq<Label>) returns (size: nat)
    requires ValidLabels(labels) && Encode(labels) <= dn
    ensures size == if |Text(labels)| > DNS_MAXNAME then 0 else |Text(labels)|
  {
    size := 0;
    var pos: nat := 0;
    ghost var k := 0;
    AtStart(dn, labels);
    LabelHere(dn, labels, 0, 0);
    while dn[pos] != 0
      invariant AtLabel(dn, labels, k, pos) && pos < |dn| && (dn[pos] == 0 <==> k == |labels|)
      invariant size == |NameText(labels[..k])| && (size > 0 <==> k > 0)
      decreases |labels| - k
    {
      pos, size := SizeNext(dn, pos, size, labels, k);
      k := k + 1;
      LabelHere(dn, labels, k, pos);
    }
    LabelHere(dn, labels, k, pos);
    size := size + 1;
    if size > DNS_MAXNAME {
      size := 0;
    }
  }

  /** Adds the printed size of the label at pos, and of the dot before it. */
  method SizeNext(dn: seq<byte>, pos: nat, size0: nat, ghost labels: seq<Label>, ghost k: nat) returns (end: nat,
                  size: nat)
    requires AtLabel(dn, labels, k, pos) && k < |labels|
    requires size0 == |NameText(labels[..k])| && (size0 > 0 <==> k > 0)
    ensures AtLabel(dn, labels, k + 1, end) && size == |NameText(labels[..k + 1])| > 0
  {
    LabelHere(dn, labels, k, pos);
    end := pos + 1 + dn[pos];
    TextStart(labels, k);
    size := LabelTextSize(dn, pos + 1, end, if size0 > 0 then size0 + 1 else size0, labels, k);
    NameTextGrows(labels, k);
  }

  lemma NameTextGrows(labels: seq<Label>, k: nat)
    requires k < |labels| && |labels[k]| > 0
    ensures |NameText(labels[..k + 1])| > 0
  {
    assert labels[..k + 1][..k] == labels[..k];
  }

  /** The buffer holds the text written so far, and nothing past the limit has changed. */
  ghost predicate Written(buffer: seq<byte>, text: seq<byte>, before: seq<byte>, limit: nat)
  {
    |buffer| == |before| && |text| <= limit <= |buffer| && buffer[..|text|] == text
        && buffer[limit..] == before[limit..]
  }

  /** Writes one byte of a label in printed form if it fits below the limit; a decimal escape needs a byte to spare. */
  method PutEscaped(name: array<byte>, np: nat, ne: nat, b: byte, ghost text: seq<byte>, ghost before: seq<byte>)
    returns (ok: bool, next: nat)
    requires np == |text| && Written(name[..], text, before, ne)
    modifies name
    ensures ok ==> next == |text + Escape(b)| && Written(name[..], text + Escape(b), before, ne)
    ensures !ok ==> Written(name[..], text, before, ne) && |text + Escape(b)| + 1 > ne
  {
    next := np;
    if Special(b) {
      if np + 2 > ne {
        return false, next;
      }
      name[np] := BACKSLASH;
      name[np + 1] := b;
      next := np + 2;
    } else if !Plain(b) {
      if np + 4 >= ne {
        return false, next;
      }
      name[np] := BACKSLASH;
      name[np + 1] := ZERO + b / 100;
      name[np + 2] := ZERO + b % 100 / 10;
      name[np + 3] := ZERO + b % 10;
      next := np + 4;
    } else {
      if np >= ne {
        return false, next;
      }
      name[np] := b;
      next := np + 1;
    }
    ok := true;
    assert name[..np] == text;
    assert name[..next] == text + Escape(b);
  }

  /** Prints label k, whose first byte is at start; failure means the whole name cannot fit. */
  method PrintLabel(dn: seq<byte>, start: nat, end: nat, name: array<byte>, np0: nat, ne: nat,
                    ghost labels: seq<Label>, ghost k: nat, ghost before: seq<byte>)
    returns (ok: bool, np: nat)
    requires k < |labels| && start <= end <= |dn| && dn[start..end] == labels[k]
    requires np0 == |TextUpTo(labels, k, 0)| && Written(name[..], TextUpTo(labels, k, 0), before, ne)
    modifies name
    ensures ok ==> np == |NameText(labels[..k + 1])| && Written(name[..], NameText(labels[..k + 1]), before, ne)
    ensures !ok ==> |Text(labels)| > ne && |name[..]| == |before| && name[ne..] == before[ne..]
  {
    np := np0;
    ghost var text := TextUpTo(labels, k, 0);
    for pos := start to end
      invariant text == TextUpTo(labels, k, pos - start) && np == |text| && Written(name[..], text, before, ne)
    {
      ok, np := PutEscaped(name, np, ne, dn[pos], text, before);
      text := NextText(dn, start, end, pos, labels, k, text);
      if !ok {
        TextUpToSize(labels, k, pos + 1 - start);
        return;
      }
    }
    TextUpToEnd(labels, k, end - start);
    ok := true;
  }

  /**
   Prints a name into a buffer. It succeeds exactly when the text with its terminator fits, and then
   returns its size; no byte at or past the limit changes.
   */
  method NameToText(dn: seq<byte>, name: array<byte>, namesiz: nat, ghost labels: seq<Label>) returns (r: int)
    requires ValidLabels(labels) && Encode(labels) <= dn && namesiz <= name.Length
    modifies name
    ensures if |Text(labels)| <= namesiz then r == |Text(labels)| && name[..r] == Text(labels)
            else r == if namesiz >= DNS_MAXNAME then -1 else 0
    ensures name[namesiz..] == old(name[namesiz..])
  {
    ghost var before := name[..];
    var tooLong := if namesiz >= DNS_MAXNAME then -1 else 0;
    var np: nat := 0;
    var pos: nat := 0;
    ghost var k := 0;
    AtStart(dn, labels);
    LabelHere(dn, labels, 0, 0);
    while dn[pos] != 0
      invariant AtLabel(dn, labels, k, pos) && pos < |dn| && (dn[pos] == 0 <==> k == |labels|)
      invariant np == |NameText(labels[..k])| && (np > 0 <==> k > 0)
      invariant Written(name[..], NameText(labels[..k]), before, namesiz)
      decreases |labels| - k
    {
      var ok;
      ok, pos, np := PrintNext(dn, pos, name, np, namesiz, labels, k, before);
      if !ok {
        return tooLong;
      }
      k := k + 1;
      LabelHere(dn, labels, k, pos);
    }
    LabelHere(dn, labels, k, pos);
    if np >= namesiz {
      return tooLong;
    }
    name[np] := 0;
    assert name[..np] == NameText(labels);
    r := np + 1;
    assert name[..r] == Text(labels);
  }

  /** Prints the label at pos, with a dot before it unless it is the first one. */
  method PrintNext(dn: seq<byte>, pos: nat, name: array<byte>, np0: nat, ne: nat, ghost labels: seq<Label>,
                   ghost k: nat,
                   ghost before: seq<byte>)
    returns (ok: bool, end: nat, np: nat)
    requires AtLabel(dn, labels, k, pos) && k < |labels|
    requires np0 == |NameText(labels[..k])| && (np0 > 0 <==> k > 0)
    requires Written(name[..], NameText(labels[..k]), before, ne)
    modifies name
    ensures ok ==> AtLabel(dn, labels, k + 1, end) && np == |NameText(labels[..k + 1])| > 0
    ensures ok ==> Written(name[..], NameText(labels[..k + 1]), before, ne)
    ensures !ok ==> |Text(labels)| > ne && |name[..]| == |before| && name[ne..] == before[ne..]
  {
    LabelHere(dn, labels, k, pos);
    end := pos + 1 + dn[pos];
    np := np0;
    TextStart(labels, k);
    if np != 0 {
      if np >= ne {
        TextUpToSize(labels, k, 0);
        return false, end, np;
      }
      name[np] := DOT;
      np := np + 1;
      assert name[..np] == NameText(labels[..k]) + [DOT];
    }
    ok, np := PrintLabel(dn, pos + 1, end, name, np, ne, labels, k, before);
    NameTextGrows(labels, k);
  }

  /** Total number of label bytes. */
  ghost function Payload(labels: seq<Label>): nat
  {
    if labels == [] then 0 else Payload(labels[..|labels| - 1]) + |labels[|labels| - 1]|
  }

  lemma {:induction false} TextBound(labels: seq<Label>)
    requires ValidLabels(labels)
    ensures |Wire(labels)| == Payload(labels) + |labels| && Payload(labels) <= DNS_MAXLABEL * |labels|
    ensures labels != [] ==> |NameText(labels)| <= 4 * Payload(labels) + |labels| - 1
  {
    if labels != [] {
      TextBound(labels[..|labels| - 1]);
    }
  }

  /** A name that fits never prints to more than 1004 bytes, so the size 0 is never given for it. */
  lemma TextAtMost1004(labels: seq<Label>)
    requires ValidName(labels)
    ensures 1 <= |Text(labels)| <= 1004 < DNS_MAXNAME
  {
    TextBound(labels);
  }
}
