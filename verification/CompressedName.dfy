/** Names in a packet as a sender writes them: whole, or with a pointer to the rest. */
module CompressedNames {
  import opened ByteTexts
  import opened Bytes
  import opened Wrappers
  import opened DomainNames
  import opened DnsPacket

  /** A pointer to an offset of 14 bits, by section 4.1.4 of RFC 1035. */
  function Pointer(off: nat): seq<byte>
    requires off < 16384
  {
    [0xC0 + off / 256, off % 256]
  }

  /** The way a name can be written at pos: labels, and then the end or a pointer to a name written before. */
  datatype Tail = End | To(off: nat)

  ghost function Written(labels: seq<Label>, tail: Tail): seq<byte>
    requires ValidLabels(labels) && (tail.To? ==> tail.off < 16384)
  {
    if labels != [] then
      assert labels == [labels[0]] + labels[1..];
      [|labels[0]|] + labels[0] + Written(labels[1..], tail)
    else if tail.End? then [0]
    else Pointer(tail.off)
  }

  lemma {:induction false} WrittenWhole(labels: seq<Label>)
    requires ValidLabels(labels)
    ensures Written(labels, End) == Encode(labels)
    decreases labels
  {
    if labels != [] {
      WrittenWhole(labels[1..]);
      assert labels == [labels[0]] + labels[1..];
      WireCons(labels[0], labels[1..]);
    }
  }

  lemma PointerNames(pkt: seq<byte>, pos: nat, off: nat, labels: seq<Label>, jumps: nat)
    requires 12 <= off < 16384 && At(pkt, pos, Pointer(off))
    ensures Names(pkt, pos, labels, jumps + 1) <==> Names(pkt, off, labels, jumps)
  {
    AtFirst(pkt, pos, Pointer(off));
    assert off / 256 < 64;
    assert Target(pkt, pos) == off;
  }

  lemma LabelNames(pkt: seq<byte>, pos: nat, lab: Label, rest: seq<Label>, jumps: nat)
    requires 1 <= |lab| <= DNS_MAXLABEL && At(pkt, pos, [|lab|] + lab)
    ensures Names(pkt, pos, [lab] + rest, jumps) <==> Names(pkt, pos + 1 + |lab|, rest, jumps)
  {
    AtParts(pkt, pos, [|lab|], lab);
    AtFirst(pkt, pos, [|lab|]);
    AtSlice(pkt, pos + 1, lab);
    assert ([lab] + rest)[1..] == rest;
  }

  lemma FirstLabel(pkt: seq<byte>, pos: nat, labels: seq<Label>, tail: Tail)
    requires ValidLabels(labels) && labels != [] && (tail.To? ==> tail.off < 16384)
    requires At(pkt, pos, Written(labels, tail))
    ensures 1 <= |labels[0]| <= DNS_MAXLABEL && ValidLabels(labels[1..]) && labels == [labels[0]] + labels[1..]
    ensures At(pkt, pos, [|labels[0]|] + labels[0])
    ensures At(pkt, pos + 1 + |labels[0]|, Written(labels[1..], tail))
    ensures |Written(labels, tail)| == 1 + |labels[0]| + |Written(labels[1..], tail)|
  {
    AtParts(pkt, pos, [|labels[0]|] + labels[0], Written(labels[1..], tail));
  }

  lemma LastNames(pkt: seq<byte>, pos: nat, tail: Tail, more: seq<Label>, jumps: nat)
    requires tail.To? ==> 12 <= tail.off < 16384
    requires At(pkt, pos, Written([], tail))
    requires if tail.To? then jumps > 0 && Names(pkt, tail.off, more, jumps - 1) else more == [] && jumps == 0
    ensures Names(pkt, pos, more, jumps)
  {
    if tail.To? {
      PointerNames(pkt, pos, tail.off, more, jumps - 1);
    } else {
      AtFirst(pkt, pos, [0]);
    }
  }

  /** What is written is named: the labels, followed by those of the name that the pointer leads to. */
  lemma {:induction false} WrittenNames(pkt: seq<byte>, pos: nat, labels: seq<Label>, tail: Tail, more: seq<Label>,
                                        jumps: nat)
    requires ValidLabels(labels) && (tail.To? ==> 12 <= tail.off < 16384)
    requires At(pkt, pos, Written(labels, tail))
    requires if tail.To? then jumps > 0 && Names(pkt, tail.off, more, jumps - 1) else more == [] && jumps == 0
    ensures Names(pkt, pos, labels + more, jumps)
    decreases labels
  {
    if labels != [] {
      var next := pos + 1 + |labels[0]|;
      FirstLabel(pkt, pos, labels, tail);
      WrittenNames(pkt, next, labels[1..], tail, more, jumps);
      NamesBefore(pkt, pos, labels, more, jumps);
    } else {
      assert labels + more == more;
      LastNames(pkt, pos, tail, more, jumps);
    }
  }

  lemma NamesBefore(pkt: seq<byte>, pos: nat, labels: seq<Label>, more: seq<Label>, jumps: nat)
    requires labels != [] && 1 <= |labels[0]| <= DNS_MAXLABEL && At(pkt, pos, [|labels[0]|] + labels[0])
    requires Names(pkt, pos + 1 + |labels[0]|, labels[1..] + more, jumps)
    ensures Names(pkt, pos, labels + more, jumps)
  {
    LabelNames(pkt, pos, labels[0], labels[1..] + more, jumps);
    assert [labels[0]] + (labels[1..] + more) == labels + more;
  }

  /** Reading such a name ends right behind what is written, wherever the pointer leads. */
  lemma {:induction false} WrittenEnds(pkt: seq<byte>, pos: nat, labels: seq<Label>, tail: Tail, left: nat, used: nat,
                                       limit: nat)
    requires ValidLabels(labels) && (tail.To? ==> 12 <= tail.off < 16384) && used <= limit
    requires At(pkt, pos, Written(labels, tail))
    ensures var o := ReadFrom(pkt, pos, None, left, used, limit);
            o.Done? ==> o.next == pos + |Written(labels, tail)|
    decreases labels
  {
    if labels == [] {
      LastEnds(pkt, pos, tail, left, used, limit);
    } else {
      var n := |labels[0]|;
      FirstLabel(pkt, pos, labels, tail);
      AtParts(pkt, pos, [n], labels[0]);
      AtFirst(pkt, pos, [n]);
      if used + n + 1 <= limit {
        LabelRead(pkt, pos, None, left, used, limit, pkt[pos + 1..pos + 1 + n]);
        WrittenEnds(pkt, pos + 1 + n, labels[1..], tail, left, used + n + 1, limit);
      }
    }
  }

  lemma LastEnds(pkt: seq<byte>, pos: nat, tail: Tail, left: nat, used: nat, limit: nat)
    requires (tail.To? ==> 12 <= tail.off < 16384) && used <= limit
    requires At(pkt, pos, Written([], tail))
    ensures var o := ReadFrom(pkt, pos, None, left, used, limit);
            o.Done? ==> o.next == pos + |Written([], tail)|
  {
    AtFirst(pkt, pos, Written([], tail));
    if tail.To? && left > 0 {
      var target := Target(pkt, pos);
      if target >= DNS_HSIZE && ReadFrom(pkt, target, Some(pos + 2), left - 1, used, limit).Done? {
        var jumps := ReadIsName(pkt, target, Some(pos + 2), left - 1, used, limit);
      }
    }
  }

  /**
   A name that a sender writes, whole or with a pointer to a name written before, is read back when it fits,
   and the cursor stops behind it.
   */
  lemma WrittenIsRead(pkt: seq<byte>, pos: nat, labels: seq<Label>, tail: Tail, more: seq<Label>, jumps: nat,
                      dnsiz: nat)
    requires ValidLabels(labels) && (tail.To? ==> 12 <= tail.off < 16384)
    requires At(pkt, pos, Written(labels, tail))
    requires if tail.To? then 0 < jumps <= 100 && Names(pkt, tail.off, more, jumps - 1)
             else more == [] && jumps == 0
    requires ValidLabels(labels + more) && dnsiz > 0 && |Wire(labels + more)| <= dnsiz && |Wire(labels + more)| <= 255
    ensures ReadFrom(pkt, pos, None, MAX_JUMPS, 0, Limit(dnsiz)) ==
            Done(labels + more, pos + |Written(labels, tail)|)
  {
    WrittenNames(pkt, pos, labels, tail, more, jumps);
    NameIsRead(pkt, pos, labels + more, jumps, None, MAX_JUMPS, 0, Limit(dnsiz));
    WrittenEnds(pkt, pos, labels, tail, MAX_JUMPS, 0, Limit(dnsiz));
  }

  /** A name that does not fit is reported as that, and not as malformed. */
  lemma {:induction false} NameNoRoom(pkt: seq<byte>, pos: nat, labels: seq<Label>, jumps: nat, first: Option<nat>,
                                      left: nat, used: nat, limit: nat)
    requires Names(pkt, pos, labels, jumps) && jumps <= left && ValidLabels(labels) && used <= limit
    requires limit == 0 || used + |Wire(labels)| > limit
    ensures ReadFrom(pkt, pos, first, left, used, limit) == NoRoom
    decreases jumps, |pkt| - pos
  {
    var c := pkt[pos];
    if IsJump(c) {
      NameNoRoom(pkt, Target(pkt, pos), labels, jumps - 1, FirstAfter(first, pos), left - 1, used, limit);
    } else if c != 0 && used + c + 1 <= limit {
      assert labels == [labels[0]] + labels[1..];
      LabelsSplit(labels[0], labels[1..]);
      NameNoRoom(pkt, pos + 1 + c, labels[1..], jumps, first, left, used + c + 1, limit);
    }
  }
}
