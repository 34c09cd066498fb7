/** Domain names as people write them: labels between dots, bytes as they are, quoted or by number. */
module DomainTexts {
  import opened ByteTexts
  import opened Bytes
  import opened DomainNames
  import opened DomainNameParser
  import C = CompressedNames

  /** How one byte of a label is written. */
  datatype Item = AsIs(b: byte) | Quoted(q: byte) | Number(digits: seq<nat>)

  function DigitByte(d: nat): byte
  {
    if d < 10 then 0x30 + d else 0
  }

  function ItemText(item: Item): (s: seq<byte>)
    ensures s != []
  {
    match item
    case AsIs(b) => [b]
    case Quoted(b) => [0x5C, b]
    case Number(digits) => [0x5C] + seq(|digits|, k requires 0 <= k < |digits| => DigitByte(digits[k]))
  }

  /** The number that up to three decimal digits stand for. */
  function NumberOf(digits: seq<nat>): nat
  {
    if digits == [] then 0 else NumberOf(digits[..|digits| - 1]) * 10 + digits[|digits| - 1]
  }

  predicate ProperItem(item: Item)
  {
    match item
    case AsIs(b) => b != 0x2E && b != 0x5C
    case Quoted(b) => !(0x30 <= b <= 0x39)
    case Number(digits) =>
      1 <= |digits| <= 3 && (forall k :: 0 <= k < |digits| ==> digits[k] < 10) && NumberOf(digits) <= 255
  }

  /** A number of one or two digits is not followed by a digit. */
  predicate Proper(items: seq<Item>)
  {
    items != [] ==>
      && ProperItem(items[0]) && Proper(items[1..])
      && !(items[0].Number? && |items[0].digits| < 3 && |items| > 1 && items[1].AsIs? && 0x30 <= items[1].b <= 0x39)
  }

  function ByteOf(item: Item): byte
    requires ProperItem(item)
  {
    match item
    case AsIs(b) => b
    case Quoted(b) => b
    case Number(digits) => NumberOf(digits)
  }

  function LabelText(items: seq<Item>): seq<byte>
  {
    if items == [] then [] else ItemText(items[0]) + LabelText(items[1..])
  }

  function LabelOf(items: seq<Item>): (lab: Label)
    requires Proper(items)
    ensures |lab| == |items|
  {
    if items == [] then [] else [ByteOf(items[0])] + LabelOf(items[1..])
  }

  lemma Numbers(a: nat, b: nat, c: nat)
    ensures NumberOf([a]) == a && NumberOf([a, b]) == 10 * a + b && NumberOf([a, b, c]) == 100 * a + 10 * b + c
  {
    assert [a][..0] == [] && [a, b][..1] == [a] && [a, b, c][..2] == [a, b];
  }

  /** One item is read as its byte, if a short number ends with it. */
  lemma ItemReads(name: seq<byte>, np: nat, item: Item, next: nat)
    requires ProperItem(item) && At(name, np, ItemText(item)) && next == np + |ItemText(item)|
    requires item.Number? && |item.digits| < 3 && next < |name| ==> !Digit(name[next])
    ensures np < |name| && name[np] != DOT && Unescape(name, np) == Byte(ByteOf(item), next)
  {
    AtFirst(name, np, ItemText(item));
    if item.Number? {
      var d := item.digits;
      if |d| == 1 {
        assert d == [d[0]];
        Numbers(d[0], 0, 0);
      } else if |d| == 2 {
        assert d == [d[0], d[1]];
        Numbers(d[0], d[1], 0);
      } else {
        assert d == [d[0], d[1], d[2]];
        Numbers(d[0], d[1], d[2]);
      }
    }
  }

  /** A label ends at the end of the text or at a dot. */
  predicate LabelEnds(name: seq<byte>, np: nat)
  {
    np < |name| ==> name[np] == 0x2E
  }

  lemma NextByte(name: seq<byte>, np: nat, items: seq<Item>, end: nat)
    requires At(name, np, LabelText(items)) && end == np + |LabelText(items)| && LabelEnds(name, end)
    requires np < |name| && Proper(items) && Digit(name[np])
    ensures items != [] && items[0].AsIs? && 0x30 <= items[0].b <= 0x39
  {
    if items != [] {
      AtParts(name, np, ItemText(items[0]), LabelText(items[1..]));
      AtFirst(name, np, ItemText(items[0]));
    }
  }

  lemma ItemAhead(name: seq<byte>, np: nat, items: seq<Item>, next: nat, end: nat)
    requires At(name, np, LabelText(items)) && end == np + |LabelText(items)|
    requires items != [] && next == np + |ItemText(items[0])|
    ensures At(name, np, ItemText(items[0]))
    ensures At(name, next, LabelText(items[1..])) && end == next + |LabelText(items[1..])|
  {
    AtBoth(name, np, ItemText(items[0]), next, LabelText(items[1..]));
  }

  lemma FirstItem(name: seq<byte>, np: nat, items: seq<Item>, next: nat, end: nat)
    requires Proper(items) && At(name, np, LabelText(items)) && end == np + |LabelText(items)| && LabelEnds(name, end)
    requires items != [] && next == np + |ItemText(items[0])|
    ensures np < |name| && name[np] != DOT && Unescape(name, np) == Byte(ByteOf(items[0]), next)
    ensures At(name, next, LabelText(items[1..])) && end == next + |LabelText(items[1..])|
  {
    ItemAhead(name, np, items, next, end);
    if next < |name| && Digit(name[next]) {
      NextByte(name, next, items[1..], end);
    }
    ItemReads(name, np, items[0], next);
  }

  /** Parsing from np on gives the outcome. */
  ghost predicate Parses(name: seq<byte>, np: nat, done: seq<byte>, cur: Label, room: nat, o: Parsed)
  {
    np <= |name| && ParseFrom(name, np, done, cur, room) == o
  }

  lemma ParseItem(name: seq<byte>, np: nat, items: seq<Item>, done: seq<byte>, cur: Label, room: nat, next: nat,
                  end: nat, o: Parsed)
    requires Proper(items) && At(name, np, LabelText(items)) && end == np + |LabelText(items)| && LabelEnds(name, end)
    requires items != [] && next == np + |ItemText(items[0])| && |done| + 1 + |cur| + 1 < room
    requires Parses(name, next, done, cur + [ByteOf(items[0])], room, o)
    ensures Parses(name, np, done, cur, room, o)
  {
    FirstItem(name, np, items, next, end);
  }

  lemma OneMore(cur: Label, items: seq<Item>, all: Label)
    requires Proper(items) && items != [] && all == cur + LabelOf(items)
    ensures all == cur + [ByteOf(items[0])] + LabelOf(items[1..])
  {
  }

  /** The bytes of a label are read into the open label while there is room. */
  lemma {:induction false} LabelReads(name: seq<byte>, np: nat, items: seq<Item>, done: seq<byte>, cur: Label,
                                      room: nat, end: nat, all: Label, o: Parsed)
    requires Proper(items) && At(name, np, LabelText(items)) && end == np + |LabelText(items)| && LabelEnds(name, end)
    requires |done| + 1 + |cur| + |items| < room && all == cur + LabelOf(items)
    requires Parses(name, end, done, all, room, o)
    ensures Parses(name, np, done, cur, room, o)
    decreases items
  {
    if items == [] {
      assert all == cur;
    } else {
      var next := np + |ItemText(items[0])|;
      FirstItem(name, np, items, next, end);
      OneMore(cur, items, all);
      LabelReads(name, next, items[1..], done, cur + [ByteOf(items[0])], room, end, all, o);
      ParseItem(name, np, items, done, cur, room, next, end, o);
    }
  }

  /** Labels of one to 63 bytes. */
  predicate ProperLabels(labels: seq<seq<Item>>)
  {
    labels != [] ==> Proper(labels[0]) && 1 <= |labels[0]| <= 63 && ProperLabels(labels[1..])
  }

  /** Labels with a dot between any two, and one at the end where the name is absolute. */
  function NameText(labels: seq<seq<Item>>, absolute: bool): seq<byte>
  {
    if labels == [] then []
    else if |labels| == 1 then LabelText(labels[0]) + if absolute then [0x2E] else []
    else LabelText(labels[0]) + ([0x2E] + NameText(labels[1..], absolute))
  }

  function LabelsOf(labels: seq<seq<Item>>): (r: seq<Label>)
    requires ProperLabels(labels)
    ensures ValidLabels(r)
  {
    if labels == [] then [] else [LabelOf(labels[0])] + LabelsOf(labels[1..])
  }

  /** The length byte and the bytes of every label, and a zero byte. */
  function WireOf(labels: seq<seq<Item>>): (w: seq<byte>)
    requires ProperLabels(labels)
    ensures |w| >= 1
  {
    if labels == [] then [0] else [|labels[0]|] + LabelOf(labels[0]) + WireOf(labels[1..])
  }

  lemma {:induction false} WireOfIs(labels: seq<seq<Item>>)
    requires ProperLabels(labels)
    ensures WireOf(labels) == Encode(LabelsOf(labels))
    decreases labels
  {
    C.WrittenWhole(LabelsOf(labels));
    if labels != [] {
      WireOfIs(labels[1..]);
      C.WrittenWhole(LabelsOf(labels[1..]));
      assert LabelsOf(labels)[1..] == LabelsOf(labels[1..]);
    }
  }

  lemma NameEnds(name: seq<byte>, np: nat, absolute: bool, done: seq<byte>, cur: Label, room: nat, o: Parsed)
    requires np + (if absolute then 1 else 0) == |name| && (absolute ==> name[np] == 0x2E) && 1 <= |cur| <= 63
    requires o == Good(done + ([|cur|] + cur + [0]), absolute)
    ensures Parses(name, np, done, cur, room, o)
  {
    assert done + ([|cur|] + cur + [0]) == done + [|cur|] + cur + [0];
  }

  /** The last label, up to the end of the text or the dot before it. */
  lemma LastReads(name: seq<byte>, np: nat, items: seq<Item>, absolute: bool, done: seq<byte>, room: nat, end: nat,
                  lab: Label, o: Parsed)
    requires Proper(items) && 1 <= |items| <= 63 && |done| + |items| + 2 <= room && lab == LabelOf(items)
    requires At(name, np, LabelText(items)) && end == np + |LabelText(items)|
    requires end + (if absolute then 1 else 0) == |name| && (absolute ==> name[end] == 0x2E)
    requires o == Good(done + ([|lab|] + lab + [0]), absolute)
    ensures Parses(name, np, done, [], room, o)
  {
    NameEnds(name, end, absolute, done, lab, room, o);
    assert lab == [] + LabelOf(items);
    LabelReads(name, np, items, done, [], room, end, lab, o);
  }

  /** A label with a dot behind it. */
  lemma LabelCloses(name: seq<byte>, np: nat, items: seq<Item>, done: seq<byte>, room: nat, end: nat, next: nat,
                    lab: Label, more: seq<byte>, o: Parsed)
    requires Proper(items) && 1 <= |items| <= 63 && |done| + |items| + 2 <= room && lab == LabelOf(items)
    requires At(name, np, LabelText(items)) && end == np + |LabelText(items)| && end < |name| && name[end] == 0x2E
    requires more == done + [|lab|] + lab && next == end + 1 && Parses(name, next, more, [], room, o)
    ensures Parses(name, np, done, [], room, o)
  {
    assert Parses(name, end, done, lab, room, o);
    assert lab == [] + LabelOf(items);
    LabelReads(name, np, items, done, [], room, end, lab, o);
  }

  lemma LastLabel(name: seq<byte>, np: nat, labels: seq<seq<Item>>, absolute: bool, end: nat)
    requires |labels| == 1 && end == np + |LabelText(labels[0])|
    requires At(name, np, NameText(labels, absolute)) && np + |NameText(labels, absolute)| == |name|
    ensures At(name, np, LabelText(labels[0])) && end + (if absolute then 1 else 0) == |name|
    ensures absolute ==> name[end] == 0x2E
  {
    AtBoth(name, np, LabelText(labels[0]), end, if absolute then [0x2E] else []);
    if absolute {
      AtFirst(name, end, [0x2E]);
    }
  }

  lemma NextLabels(name: seq<byte>, np: nat, labels: seq<seq<Item>>, absolute: bool, end: nat, next: nat)
    requires |labels| > 1 && end == np + |LabelText(labels[0])| && next == end + 1
    requires At(name, np, NameText(labels, absolute)) && np + |NameText(labels, absolute)| == |name|
    ensures At(name, np, LabelText(labels[0])) && end < |name| && name[end] == 0x2E
    ensures At(name, next, NameText(labels[1..], absolute)) && next + |NameText(labels[1..], absolute)| == |name|
  {
    AtBoth(name, np, LabelText(labels[0]), end, [0x2E] + NameText(labels[1..], absolute));
    AtBoth(name, end, [0x2E], next, NameText(labels[1..], absolute));
    AtFirst(name, end, [0x2E]);
  }

  lemma Regroup(a: seq<byte>, b: seq<byte>, c: seq<byte>, d: seq<byte>)
    ensures a + b + c + d == a + (b + c + d)
  {
  }

  /** The closed labels with one more. */
  function Closed(done: seq<byte>, lab: Label): seq<byte>
    requires |lab| <= 63
  {
    done + [|lab|] + lab
  }

  lemma WireParts(labels: seq<seq<Item>>, absolute: bool, done: seq<byte>, lab: Label, o: Parsed)
    requires ProperLabels(labels) && labels != [] && lab == LabelOf(labels[0])
    requires o == Good(done + WireOf(labels), absolute)
    ensures o == Good(Closed(done, lab) + WireOf(labels[1..]), absolute)
    ensures |labels| == 1 ==> o == Good(done + ([|lab|] + lab + [0]), absolute) && |WireOf(labels)| == |lab| + 2
    ensures |done| + |WireOf(labels)| == |Closed(done, lab)| + |WireOf(labels[1..])| >= |done| + |lab| + 2
  {
    Regroup(done, [|lab|], lab, WireOf(labels[1..]));
  }

  lemma OneLabel(name: seq<byte>, np: nat, labels: seq<seq<Item>>, absolute: bool, done: seq<byte>, room: nat,
                 lab: Label, o: Parsed)
    requires ProperLabels(labels) && |labels| == 1 && lab == LabelOf(labels[0])
    requires At(name, np, NameText(labels, absolute)) && np + |NameText(labels, absolute)| == |name|
    requires |done| + |lab| + 2 <= room && o == Good(done + ([|lab|] + lab + [0]), absolute)
    ensures Parses(name, np, done, [], room, o)
  {
    var end := np + |LabelText(labels[0])|;
    LastLabel(name, np, labels, absolute, end);
    LastReads(name, np, labels[0], absolute, done, room, end, lab, o);
  }

  lemma OneMoreLabel(name: seq<byte>, np: nat, labels: seq<seq<Item>>, absolute: bool, done: seq<byte>, room: nat,
                     next: nat, lab: Label, more: seq<byte>, o: Parsed)
    requires ProperLabels(labels) && |labels| > 1 && lab == LabelOf(labels[0]) && more == Closed(done, lab)
    requires At(name, np, NameText(labels, absolute)) && np + |NameText(labels, absolute)| == |name|
    requires |done| + |lab| + 2 <= room && next == np + |LabelText(labels[0])| + 1
    requires Parses(name, next, more, [], room, o)
    ensures Parses(name, np, done, [], room, o)
  {
    NextLabels(name, np, labels, absolute, next - 1, next);
    LabelCloses(name, np, labels[0], done, room, next - 1, next, lab, more, o);
  }

  lemma {:induction false} LabelsRead(name: seq<byte>, np: nat, labels: seq<seq<Item>>, absolute: bool, done: seq<byte>,
                                      room: nat, o: Parsed)
    requires ProperLabels(labels) && labels != []
    requires At(name, np, NameText(labels, absolute)) && np + |NameText(labels, absolute)| == |name|
    requires |done| + |WireOf(labels)| <= room && o == Good(done + WireOf(labels), absolute)
    ensures Parses(name, np, done, [], room, o)
    decreases labels
  {
    var lab := LabelOf(labels[0]);
    WireParts(labels, absolute, done, lab, o);
    if |labels| == 1 {
      OneLabel(name, np, labels, absolute, done, room, lab, o);
    } else {
      var next, more := np + |LabelText(labels[0])| + 1, Closed(done, lab);
      NextLabels(name, np, labels, absolute, next - 1, next);
      LabelsRead(name, next, labels[1..], absolute, more, room, o);
      OneMoreLabel(name, np, labels, absolute, done, room, next, lab, more, o);
    }
  }

  /** A written name that fits is read as its labels, and is absolute exactly when a dot ends it. */
  lemma NameReads(labels: seq<seq<Item>>, absolute: bool, room: nat)
    requires ProperLabels(labels) && labels != [] && |Encode(LabelsOf(labels))| <= room
    ensures ParseFrom(NameText(labels, absolute), 0, [], [], room) == Good(Encode(LabelsOf(labels)), absolute)
  {
    WireOfIs(labels);
    assert [] + WireOf(labels) == WireOf(labels);
    LabelsRead(NameText(labels, absolute), 0, labels, absolute, [], room, Good(WireOf(labels), absolute));
  }

  /** A label that does not fit. */
  lemma {:induction false} LabelOverflows(name: seq<byte>, np: nat, items: seq<Item>, done: seq<byte>, cur: Label,
                                          room: nat, end: nat)
    requires Proper(items) && At(name, np, LabelText(items)) && end == np + |LabelText(items)| && LabelEnds(name, end)
    requires items != [] && |done| + 1 + |cur| + |items| >= room
    ensures Parses(name, np, done, cur, room, NoRoom)
    decreases items
  {
    var next := np + |ItemText(items[0])|;
    FirstItem(name, np, items, next, end);
    if |done| + 1 + |cur| + 1 < room {
      LabelOverflows(name, next, items[1..], done, cur + [ByteOf(items[0])], room, end);
      ParseItem(name, np, items, done, cur, room, next, end, NoRoom);
    }
  }

  lemma FirstStands(name: seq<byte>, np: nat, labels: seq<seq<Item>>, absolute: bool)
    requires labels != [] && At(name, np, NameText(labels, absolute)) && np + |NameText(labels, absolute)| == |name|
    ensures At(name, np, LabelText(labels[0])) && LabelEnds(name, np + |LabelText(labels[0])|)
  {
    if |labels| == 1 {
      LastLabel(name, np, labels, absolute, np + |LabelText(labels[0])|);
    } else {
      NextLabels(name, np, labels, absolute, np + |LabelText(labels[0])|, np + |LabelText(labels[0])| + 1);
    }
  }

  lemma {:induction false} LabelsOverflow(name: seq<byte>, np: nat, labels: seq<seq<Item>>, absolute: bool,
                                          done: seq<byte>, room: nat)
    requires ProperLabels(labels) && labels != [] && |done| + |WireOf(labels)| > room
    requires At(name, np, NameText(labels, absolute)) && np + |NameText(labels, absolute)| == |name|
    ensures Parses(name, np, done, [], room, NoRoom)
    decreases labels
  {
    var lab := LabelOf(labels[0]);
    WireParts(labels, absolute, done, lab, Good(done + WireOf(labels), absolute));
    if |done| + 1 + |lab| >= room {
      FirstStands(name, np, labels, absolute);
      LabelOverflows(name, np, labels[0], done, [], room, np + |LabelText(labels[0])|);
    } else {
      var next, more := np + |LabelText(labels[0])| + 1, Closed(done, lab);
      NextLabels(name, np, labels, absolute, next - 1, next);
      LabelsOverflow(name, next, labels[1..], absolute, more, room);
      OneMoreLabel(name, np, labels, absolute, done, room, next, lab, more, NoRoom);
    }
  }

  /** A written name that does not fit is refused for that. */
  lemma NameTooLong(labels: seq<seq<Item>>, absolute: bool, room: nat)
    requires ProperLabels(labels) && labels != [] && |Encode(LabelsOf(labels))| > room
    ensures ParseFrom(NameText(labels, absolute), 0, [], [], room) == NoRoom
  {
    WireOfIs(labels);
    LabelsOverflow(NameText(labels, absolute), 0, labels, absolute, [], room);
  }

  /** How a byte is printed: with a backslash where it has a meaning, by three digits where it cannot be seen. */
  function PrintedItem(b: byte): Item
  {
    if b in [0x22, 0x24, 0x2E, 0x3B, 0x40, 0x5C] then Quoted(b)
    else if 0x21 <= b <= 0x7E then AsIs(b)
    else Number([b / 100, b / 10 % 10, b % 10])
  }

  lemma ThreeDigits(b: byte)
    ensures b / 100 < 10 && b / 10 % 10 == b % 100 / 10 < 10 && NumberOf([b / 100, b / 10 % 10, b % 10]) == b
  {
    Numbers(b / 100, b / 10 % 10, b % 10);
  }

  lemma NumberText(digits: seq<nat>)
    requires |digits| == 3 && digits[0] < 10 && digits[1] < 10 && digits[2] < 10
    ensures ItemText(Number(digits)) == [0x5C, 0x30 + digits[0], 0x30 + digits[1], 0x30 + digits[2]]
  {
  }

  /** The printed form is one that can be read, of printable characters only. */
  lemma PrintedIsText(b: byte)
    ensures ProperItem(PrintedItem(b)) && ByteOf(PrintedItem(b)) == b && Escape(b) == ItemText(PrintedItem(b))
    ensures forall k :: 0 <= k < |Escape(b)| ==> 0x21 <= Escape(b)[k] <= 0x7E
  {
    if PrintedItem(b).Number? {
      ThreeDigits(b);
      NumberText([b / 100, b / 10 % 10, b % 10]);
    }
  }

  /** The empty text and a single dot are the root. */
  lemma RootReads(room: nat)
    ensures ParseFrom([], 0, [], [], room) == ParseFrom([0x2E], 0, [], [], room) == Good([0], true)
  {
  }

  /** Two dots in a row, or a dot before the first label, are refused. */
  lemma EmptyLabel(name: seq<byte>, np: nat, done: seq<byte>, room: nat)
    requires np < |name| && name[np] == 0x2E && |name| > 1
    ensures ParseFrom(name, np, done, [], room) == Bad
  {
  }

  /** A label of 64 bytes or more is refused. */
  lemma LongLabel(name: seq<byte>, np: nat, items: seq<Item>, done: seq<byte>, room: nat)
    requires Proper(items) && |items| > 63 && At(name, np, LabelText(items)) && LabelEnds(name, np + |LabelText(items)|)
    requires |done| + 1 + |items| < room
    ensures ParseFrom(name, np, done, [], room) == Bad
  {
    assert [] + LabelOf(items) == LabelOf(items);
    LabelReads(name, np, items, done, [], room, np + |LabelText(items)|, LabelOf(items), Bad);
  }
}
