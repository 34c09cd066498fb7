/** Domain names inside a DNS packet: decompression with a budget of jumps, and skipping. */
module DnsPacket {
  import opened Wrappers
  import opened Bytes
  import opened DomainNames

  const DNS_HSIZE := 12
  const MAX_JUMPS := 100

  /** A length byte with either of its top two bits set stands for a jump. */
  predicate IsJump(c: byte)
  {
    c >= 64
  }

  /** The 14-bit target of the jump whose first byte is at pos. */
  function Target(pkt: seq<byte>, pos: nat): nat
    requires pos + 1 < |pkt|
  {
    var high: nat := pkt[pos] % 64;
    high * 256 + pkt[pos + 1]
  }

  /** The name at pos, reached over exactly the given number of jumps, none of them into the header. */
  ghost predicate Names(pkt: seq<byte>, pos: nat, labels: seq<Label>, jumps: nat)
    decreases jumps, |pkt| - pos
  {
    && pos < |pkt|
    && var c := pkt[pos];
       if c == 0 then labels == [] && jumps == 0
       else if IsJump(c) then
         && pos + 1 < |pkt| && Target(pkt, pos) >= 12 && jumps > 0
         && Names(pkt, Target(pkt, pos), labels, jumps - 1)
       else
         && labels != [] && pos + 1 + c <= |pkt| && labels[0] == pkt[pos + 1..pos + 1 + c]
         && Names(pkt, pos + 1 + c, labels[1..], jumps)
  }

  /** Position after the name at pos, without following a jump; None when the packet ends first. */
  function SkipFrom(pkt: seq<byte>, pos: nat): (next: Option<nat>)
    ensures next.Some? ==> pos < next.value <= |pkt|
    decreases |pkt| - pos
  {
    if pos >= |pkt| then None
    else if pkt[pos] == 0 then Some(pos + 1)
    else if IsJump(pkt[pos]) then (if pos + 2 >= |pkt| then None else Some(pos + 2))
    else SkipFrom(pkt, pos + 1 + pkt[pos])
  }

  method SkipName(pkt: seq<byte>, start: nat) returns (next: Option<nat>)
    ensures next == SkipFrom(pkt, start)
  {
    var cur := start;
    while true
      invariant SkipFrom(pkt, cur) == SkipFrom(pkt, start)
      decreases |pkt| - cur
    {
      if cur >= |pkt| {
        return None;
      }
      var c := pkt[cur];
      cur := cur + 1;
      if c == 0 {
        return Some(cur);
      }
      if IsJump(c) {
        return if cur + 1 >= |pkt| then None else Some(cur + 1);
      }
      cur := cur + c;
    }
  }

  datatype Outcome = Malformed | NoRoom | Done(labels: seq<Label>, next: nat)

  /** The first jump settles where the name ends. */
  function FirstAfter(first: Option<nat>, pos: nat): Option<nat>
  {
    if first.Some? then first else Some(pos + 2)
  }

  /**
   The rest of the name from pos. `first` is the position after the first jump taken, `left` the
   jumps still allowed, `used` the bytes already written out of `limit`.
   */
  ghost function ReadFrom(pkt: seq<byte>, pos: nat, first: Option<nat>, left: nat, used: nat, limit: nat): (o: Outcome)
    decreases left, |pkt| - pos
  {
    if pos >= |pkt| then Malformed
    else
      var c := pkt[pos];
      if c == 0 then (if limit == 0 then NoRoom else Done([], if first.Some? then first.value else pos + 1))
      else if IsJump(c) then
        if pos + 1 >= |pkt| || left == 0 || Target(pkt, pos) < DNS_HSIZE then Malformed
        else ReadFrom(pkt, Target(pkt, pos), FirstAfter(first, pos), left - 1, used, limit)
      else if pos + 1 + c > |pkt| then Malformed
      else if used + c + 1 > limit then NoRoom
      else
        match ReadFrom(pkt, pos + 1 + c, first, left, used + c + 1, limit)
        case Done(labels, next) => Done([pkt[pos + 1..pos + 1 + c]] + labels, next)
        case other => other
  }

  /** A label in front of all labels but the last, and one in front of all of them. */
  lemma WireConsStep(lab: Label, front: seq<Label>, last: Label)
    requires 1 <= |lab| <= DNS_MAXLABEL && 1 <= |last| <= DNS_MAXLABEL && ValidLabels(front)
    requires ValidLabels([lab] + front) && Wire([lab] + front) == [|lab|] + lab + Wire(front)
    ensures ValidLabels(front + [last]) && ValidLabels([lab] + front + [last])
    ensures Wire([lab] + front + [last]) == [|lab|] + lab + Wire(front + [last])
  {
    WireSnoc(front, last);
    WireSnoc([lab] + front, last);
    Regroup([|lab|] + lab, Wire(front), [|last|], last);
  }

  lemma {:induction false} WireCons(lab: Label, labels: seq<Label>)
    requires 1 <= |lab| <= DNS_MAXLABEL && ValidLabels(labels)
    ensures ValidLabels([lab] + labels) && Wire([lab] + labels) == [|lab|] + lab + Wire(labels)
  {
    if labels == [] {
      assert [lab] + labels == [lab] && [lab][..0] == [];
    } else {
      var n := |labels| - 1;
      WireCons(lab, labels[..n]);
      WireConsStep(lab, labels[..n], labels[n]);
      assert labels[..n] + [labels[n]] == labels;
      assert [lab] + labels[..n] + [labels[n]] == [lab] + labels;
    }
  }

  lemma Regroup(a: seq<byte>, b: seq<byte>, c: seq<byte>, d: seq<byte>)
    ensures a + b + c + d == a + (b + c + d)
  {
  }

  lemma WireSize(lab: Label, labels: seq<Label>)
    requires 1 <= |lab| <= DNS_MAXLABEL && ValidLabels(labels)
    ensures ValidLabels([lab] + labels) && |Wire([lab] + labels)| == 1 + |lab| + |Wire(labels)|
  {
    WireCons(lab, labels);
  }

  lemma LabelsSplit(lab: Label, labels: seq<Label>)
    requires ValidLabels([lab] + labels)
    ensures 1 <= |lab| <= DNS_MAXLABEL && ValidLabels(labels) && |Wire([lab] + labels)| == 1 + |lab| + |Wire(labels)|
  {
    var all := [lab] + labels;
    assert all[0] == lab && forall k :: 0 <= k < |labels| ==> labels[k] == all[k + 1];
    WireCons(lab, labels);
  }

  lemma WireSnoc(labels: seq<Label>, lab: Label)
    requires 1 <= |lab| <= DNS_MAXLABEL && ValidLabels(labels)
    ensures ValidLabels(labels + [lab]) && Wire(labels + [lab]) == Wire(labels) + [|lab|] + lab
  {
    assert (labels + [lab])[..|labels|] == labels;
  }

  ghost function Prepend(done: seq<Label>, o: Outcome): Outcome
  {
    match o
    case Done(labels, next) => Done(done + labels, next)
    case other => other
  }

  lemma LabelRead(pkt: seq<byte>, pos: nat, first: Option<nat>, left: nat, used: nat, limit: nat, lab: Label)
    requires pos < |pkt| && 0 < pkt[pos] < 64 && pos + 1 + pkt[pos] <= |pkt| && used + pkt[pos] + 1 <= limit
    requires lab == pkt[pos + 1..pos + 1 + pkt[pos]]
    ensures ReadFrom(pkt, pos, first, left, used, limit) ==
            Prepend([lab], ReadFrom(pkt, pos + 1 + pkt[pos], first, left, used + pkt[pos] + 1, limit))
  {
  }

  /** What was read is a name over the given number of jumps that fits. */
  ghost predicate ReadOk(pkt: seq<byte>, pos: nat, first: Option<nat>, left: nat, used: nat, limit: nat, jumps: nat)
  {
    var o := ReadFrom(pkt, pos, first, left, used, limit);
    && o.Done? && jumps <= left && Names(pkt, pos, o.labels, jumps)
    && ValidLabels(o.labels) && used + |Wire(o.labels)| <= limit && limit > 0
    && (first.Some? ==> o.next == first.value)
  }

  /** Only names with a bounded number of jumps that fit are read. */
  lemma {:induction false} ReadIsName(pkt: seq<byte>, pos: nat, first: Option<nat>, left: nat, used: nat, limit: nat)
    returns (jumps: nat)
    requires used <= limit && ReadFrom(pkt, pos, first, left, used, limit).Done?
    ensures ReadOk(pkt, pos, first, left, used, limit, jumps)
    decreases left, |pkt| - pos, 1
  {
    if pkt[pos] == 0 {
      jumps := 0;
    } else if IsJump(pkt[pos]) {
      jumps := ReadIsName(pkt, Target(pkt, pos), FirstAfter(first, pos), left - 1, used, limit);
      jumps := jumps + 1;
    } else {
      jumps := ReadIsLabel(pkt, pos, first, left, used, limit);
    }
  }

  lemma {:induction false} ReadIsLabel(pkt: seq<byte>, pos: nat, first: Option<nat>, left: nat, used: nat, limit: nat)
    returns (jumps: nat)
    requires used <= limit && ReadFrom(pkt, pos, first, left, used, limit).Done? && 0 < pkt[pos] < 64
    ensures ReadOk(pkt, pos, first, left, used, limit, jumps)
    decreases left, |pkt| - pos, 0
  {
    var c := pkt[pos];
    var lab, tail := pkt[pos + 1..pos + 1 + c], ReadFrom(pkt, pos + 1 + c, first, left, used + c + 1, limit).labels;
    LabelRead(pkt, pos, first, left, used, limit, lab);
    jumps := ReadIsName(pkt, pos + 1 + c, first, left, used + c + 1, limit);
    WireSize(lab, tail);
    assert ([lab] + tail)[1..] == tail;
  }

  lemma {:induction false} NamesValid(pkt: seq<byte>, pos: nat, labels: seq<Label>, jumps: nat)
    requires Names(pkt, pos, labels, jumps)
    ensures ValidLabels(labels)
    decreases jumps, |pkt| - pos
  {
    var c := pkt[pos];
    if c != 0 {
      if IsJump(c) {
        NamesValid(pkt, Target(pkt, pos), labels, jumps - 1);
      } else {
        NamesValid(pkt, pos + 1 + c, labels[1..], jumps);
        assert labels == [labels[0]] + labels[1..];
      }
    }
  }

  /** Every name that needs no more jumps than allowed and fits is read. */
  lemma {:induction false} NameIsRead(pkt: seq<byte>, pos: nat, labels: seq<Label>, jumps: nat,
                                      first: Option<nat>, left: nat, used: nat, limit: nat)
    requires Names(pkt, pos, labels, jumps) && jumps <= left && limit > 0
    requires ValidLabels(labels) && used + |Wire(labels)| <= limit
    ensures Reads(ReadFrom(pkt, pos, first, left, used, limit), labels)
    decreases jumps, |pkt| - pos, 1
  {
    if IsJump(pkt[pos]) {
      NameIsRead(pkt, Target(pkt, pos), labels, jumps - 1, FirstAfter(first, pos), left - 1, used, limit);
    } else if pkt[pos] != 0 {
      assert labels == [labels[0]] + labels[1..];
      LabelIsRead(pkt, pos, labels[0], labels[1..], jumps, first, left, used, limit);
    }
  }

  lemma {:induction false} LabelIsRead(pkt: seq<byte>, pos: nat, lab: Label, tail: seq<Label>, jumps: nat,
                                       first: Option<nat>, left: nat, used: nat, limit: nat)
    requires pos < |pkt| && 0 < pkt[pos] < 64 && pos + 1 + pkt[pos] <= |pkt| && lab == pkt[pos + 1..pos + 1 + pkt[pos]]
    requires Names(pkt, pos + 1 + pkt[pos], tail, jumps) && jumps <= left && limit > 0
    requires ValidLabels([lab] + tail) && used + |Wire([lab] + tail)| <= limit
    ensures Reads(ReadFrom(pkt, pos, first, left, used, limit), [lab] + tail)
    decreases jumps, |pkt| - pos, 0
  {
    LabelsSplit(lab, tail);
    LabelRead(pkt, pos, first, left, used, limit, lab);
    NameIsRead(pkt, pos + 1 + pkt[pos], tail, jumps, first, left, used + pkt[pos] + 1, limit);
  }

  ghost predicate Reads(o: Outcome, labels: seq<Label>)
  {
    o.Done? && o.labels == labels
  }

  /** A position names at most one sequence of labels. */
  lemma NamesUnique(pkt: seq<byte>, pos: nat, a: seq<Label>, m: nat, b: seq<Label>, n: nat)
    requires Names(pkt, pos, a, m) && Names(pkt, pos, b, n)
    ensures a == b
  {
    NamesValid(pkt, pos, a, m);
    NamesValid(pkt, pos, b, n);
    var limit := |Wire(a)| + |Wire(b)| + 1;
    NameIsRead(pkt, pos, a, m, None, m + n, 0, limit);
    NameIsRead(pkt, pos, b, n, None, m + n, 0, limit);
  }

  /** A length byte with the top bits 01 or 10, which section 4.1.4 of RFC 1035 reserves. */
  predicate IsReserved(c: byte)
  {
    64 <= c < 192
  }

  /** Reading as RFC 1035 has it, within the same budget and room: a reserved length byte is an error. */
  ghost function RfcRead(pkt: seq<byte>, pos: nat, first: Option<nat>, left: nat, used: nat, limit: nat): (o: Outcome)
    decreases left, |pkt| - pos
  {
    if pos >= |pkt| then Malformed
    else
      var c := pkt[pos];
      if c == 0 then (if limit == 0 then NoRoom else Done([], if first.Some? then first.value else pos + 1))
      else if c >= 192 then
        if pos + 1 >= |pkt| || left == 0 || Target(pkt, pos) < DNS_HSIZE then Malformed
        else RfcRead(pkt, Target(pkt, pos), FirstAfter(first, pos), left - 1, used, limit)
      else if IsReserved(c) || pos + 1 + c > |pkt| then Malformed
      else if used + c + 1 > limit then NoRoom
      else Prepend([pkt[pos + 1..pos + 1 + c]], RfcRead(pkt, pos + 1 + c, first, left, used + c + 1, limit))
  }

  /** A reserved length byte is met before reading ends. */
  ghost predicate MeetsReserved(pkt: seq<byte>, pos: nat, left: nat, used: nat, limit: nat)
    decreases left, |pkt| - pos
  {
    && pos < |pkt| && pkt[pos] != 0
    && var c := pkt[pos];
       || IsReserved(c)
       || (c >= 192 && pos + 1 < |pkt| && left > 0 && Target(pkt, pos) >= DNS_HSIZE
           && MeetsReserved(pkt, Target(pkt, pos), left - 1, used, limit))
       || (c < 64 && pos + 1 + c <= |pkt| && used + c + 1 <= limit
          && MeetsReserved(pkt, pos + 1 + c, left, used + c + 1, limit))
  }

  /** The code reads what the RFC reads as long as no reserved byte is met; where one is, the RFC has no name. */
  lemma {:induction false} ReadsLikeRfc(pkt: seq<byte>, pos: nat, first: Option<nat>, left: nat, used: nat, limit: nat)
    ensures RfcRead(pkt, pos, first, left, used, limit) ==
            if MeetsReserved(pkt, pos, left, used, limit) then Malformed
            else ReadFrom(pkt, pos, first, left, used, limit)
    decreases left, |pkt| - pos
  {
    if pos < |pkt| && pkt[pos] != 0 {
      var c := pkt[pos];
      if c >= 192 {
        if pos + 1 < |pkt| && left > 0 && Target(pkt, pos) >= DNS_HSIZE {
          ReadsLikeRfc(pkt, Target(pkt, pos), FirstAfter(first, pos), left - 1, used, limit);
        }
      } else if c < 64 && pos + 1 + c <= |pkt| && used + c + 1 <= limit {
        ReadsLikeRfc(pkt, pos + 1 + c, first, left, used + c + 1, limit);
        LabelRead(pkt, pos, first, left, used, limit, pkt[pos + 1..pos + 1 + c]);
      }
    }
  }

  /** The two readings agree exactly when no reserved byte is met or the code finds no name either. */
  lemma SameAsRfcIff(pkt: seq<byte>, pos: nat, left: nat, limit: nat)
    ensures RfcRead(pkt, pos, None, left, 0, limit) == ReadFrom(pkt, pos, None, left, 0, limit) <==>
              !MeetsReserved(pkt, pos, left, 0, limit) || ReadFrom(pkt, pos, None, left, 0, limit) == Malformed
  {
    ReadsLikeRfc(pkt, pos, None, left, 0, limit);
  }

  /** A packet of a header, the bytes 64 and 14, and the root that the two are taken to point to. */
  function ReservedPacket(): seq<byte>
  {
    [0, 0, 0, 0, 0, 0, 0, 0, 0, 0, 0, 0, 64, 14, 0]
  }

  lemma ReservedExample()
    ensures var pkt := ReservedPacket();
            && ReadFrom(pkt, 12, None, MAX_JUMPS, 0, DNS_MAXDN) == Done([], 14)
            && RfcRead(pkt, 12, None, MAX_JUMPS, 0, DNS_MAXDN) == Malformed
  {
    var pkt := ReservedPacket();
    assert Target(pkt, 12) == 14 && pkt[14] == 0;
  }

  /** Where the first jump of the name at pos stands, if there is one. */
  function FirstJump(pkt: seq<byte>, pos: nat): Option<nat>
    decreases |pkt| - pos
  {
    if pos >= |pkt| || pkt[pos] == 0 then None
    else if IsJump(pkt[pos]) then Some(pos)
    else FirstJump(pkt, pos + 1 + pkt[pos])
  }

  /** The cursor after a read is the one after a skip, except exactly when a jump ends the packet. */
  lemma {:induction false} ReadAdvancesLikeSkip(pkt: seq<byte>, pos: nat, left: nat, used: nat, limit: nat)
    requires used <= limit && ReadFrom(pkt, pos, None, left, used, limit).Done?
    ensures var next := ReadFrom(pkt, pos, None, left, used, limit).next;
            SkipFrom(pkt, pos) == if FirstJump(pkt, pos) == Some(|pkt| - 2) then None else Some(next)
    ensures FirstJump(pkt, pos) == Some(|pkt| - 2) ==> ReadFrom(pkt, pos, None, left, used, limit).next == |pkt|
    decreases left, |pkt| - pos
  {
    var c := pkt[pos];
    if c != 0 {
      if IsJump(c) {
        var jumps := ReadIsName(pkt, Target(pkt, pos), Some(pos + 2), left - 1, used, limit);
      } else {
        ReadAdvancesLikeSkip(pkt, pos + 1 + c, left, used + c + 1, limit);
      }
    }
  }

  /** A packet of a header, the root, and a pointer to it: the name at the pointer is read, but cannot be skipped. */
  lemma SkipExample()
    ensures var pkt: seq<byte> := [0, 0, 0, 0, 0, 0, 0, 0, 0, 0, 0, 0, 0, 192, 12];
            && ReadFrom(pkt, 13, None, MAX_JUMPS, 0, DNS_MAXDN) == Done([], 15)
            && SkipFrom(pkt, 13) == None && FirstJump(pkt, 13) == Some(|pkt| - 2)
  {
    var pkt: seq<byte> := [0, 0, 0, 0, 0, 0, 0, 0, 0, 0, 0, 0, 0, 192, 12];
    assert Target(pkt, 13) == 12 && pkt[12] == 0;
  }

  /** The buffer holds the wire form of the labels read so far. */
  ghost predicate Holds(dn: seq<byte>, dp: nat, done: seq<Label>)
  {
    ValidLabels(done) && dp == |Wire(done)| <= |dn| && dn[..dp] == Wire(done)
  }

  /** From here on the buffer is as it was. */
  ghost predicate Kept(dn: seq<byte>, before: seq<byte>, from: nat)
  {
    |dn| == |before| && forall i :: from <= i < |dn| ==> dn[i] == before[i]
  }

  /** Reading a label moves it from the rest of the name to the labels read. */
  lemma ReadLabel(pkt: seq<byte>, pos: nat, first: Option<nat>, left: nat, used: nat, limit: nat, done: seq<Label>,
                  lab: Label)
    requires pos < |pkt| && 0 < pkt[pos] < 64 && pos + 1 + pkt[pos] <= |pkt| && used + pkt[pos] + 1 <= limit
    requires lab == pkt[pos + 1..pos + 1 + pkt[pos]]
    ensures Prepend(done, ReadFrom(pkt, pos, first, left, used, limit)) ==
            Prepend(done + [lab], ReadFrom(pkt, pos + 1 + pkt[pos], first, left, used + 1 + pkt[pos], limit))
  {
    var rest := ReadFrom(pkt, pos + 1 + pkt[pos], first, left, used + pkt[pos] + 1, limit);
    if rest.Done? {
      assert done + ([lab] + rest.labels) == (done + [lab]) + rest.labels;
    }
  }

  lemma ThreeSlices(s: seq<byte>, i: nat, j: nat)
    requires i < j <= |s|
    ensures s[..j] == s[..i] + [s[i]] + s[i + 1..j]
  {
  }

  lemma SliceGrows(s: seq<byte>, i: nat, j: nat)
    requires i <= j < |s|
    ensures s[i..j + 1] == s[i..j] + [s[j]]
  {
  }

  /** Copies one label behind its length byte. */
  method CopyLabel(pkt: seq<byte>, pp: nat, c: byte, dn: array<byte>, dp: nat, ghost done: seq<Label>)
    requires 1 <= c <= DNS_MAXLABEL && pp + c <= |pkt| && dp + 1 + c <= dn.Length && Holds(dn[..], dp, done)
    modifies dn
    ensures Holds(dn[..], dp + 1 + c, done + [pkt[pp..pp + c]]) && Kept(dn[..], old(dn[..]), dp + 1 + c)
  {
    dn[dp] := c;
    for i := 0 to c
      invariant dn[..dp] == Wire(done) && dn[dp] == c && Kept(dn[..], old(dn[..]), dp + 1 + c)
      invariant dn[dp + 1..dp + 1 + i] == pkt[pp..pp + i]
    {
      dn[dp + 1 + i] := pkt[pp + i];
      assert dn[dp + 1..dp + 1 + i] == pkt[pp..pp + i];
      SliceGrows(dn[..], dp + 1, dp + 1 + i);
      SliceGrows(pkt, pp, pp + i);
    }
    WireSnoc(done, pkt[pp..pp + c]);
    ThreeSlices(dn[..], dp, dp + 1 + c);
  }

  /** Reads the label at pp into the buffer. */
  method TakeLabel(pkt: seq<byte>, pp: nat, dn: array<byte>, dp: nat, ghost first: Option<nat>, ghost left: nat,
                   ghost limit: nat, ghost done: seq<Label>, ghost before: seq<byte>)
    returns (ghost more: seq<Label>)
    requires pp < |pkt| && 0 < pkt[pp] < 64 && pp + 1 + pkt[pp] <= |pkt| && dp + pkt[pp] + 1 <= limit <= dn.Length
    requires Holds(dn[..], dp, done) && Kept(dn[..], before, limit)
    modifies dn
    ensures Holds(dn[..], dp + 1 + pkt[pp], more) && Kept(dn[..], before, limit)
    ensures Prepend(done, ReadFrom(pkt, pp, first, left, dp, limit)) ==
            Prepend(more, ReadFrom(pkt, pp + 1 + pkt[pp], first, left, dp + 1 + pkt[pp], limit))
  {
    var c := pkt[pp];
    more := done + [pkt[pp + 1..pp + 1 + c]];
    ReadLabel(pkt, pp, first, left, dp, limit, done, pkt[pp + 1..pp + 1 + c]);
    CopyLabel(pkt, pp + 1, c, dn, dp, done);
  }

  /** Puts the terminator behind the labels. */
  method EndName(dn: array<byte>, dp: nat, ghost done: seq<Label>)
    requires dp < dn.Length && Holds(dn[..], dp, done)
    modifies dn
    ensures ValidLabels(done) && dp + 1 == |Encode(done)| && dn[..dp + 1] == Encode(done) && done + [] == done
    ensures Kept(dn[..], old(dn[..]), dp + 1)
  {
    dn[dp] := 0;
    assert dn[..dp + 1] == dn[..dp] + [0];
  }

  function Limit(dnsiz: nat): nat
  {
    if dnsiz < DNS_MAXDN then dnsiz else DNS_MAXDN
  }

  /**
   The labels fill the destination, so that the terminator goes behind it: the check for room compares the start of
   the destination with its end.
   */
  ghost predicate Overruns(pkt: seq<byte>, cur: nat, limit: nat)
  {
    var o := ReadFrom(pkt, cur, None, MAX_JUMPS, 0, limit);
    o.Done? && ValidLabels(o.labels) && |Wire(o.labels)| == limit
  }

  /** The bytes from the start of the destination that reading a name may write to. */
  ghost function Footprint(pkt: seq<byte>, cur: nat, limit: nat): nat
  {
    if Overruns(pkt, cur, limit) then limit + 1 else limit
  }

  /**
   A name that is read takes more bytes than the destination has exactly when its labels fill it; then it is one more.
   */
  lemma OverrunIff(pkt: seq<byte>, cur: nat, limit: nat)
    requires ReadFrom(pkt, cur, None, MAX_JUMPS, 0, limit).Done?
    ensures var labels := ReadFrom(pkt, cur, None, MAX_JUMPS, 0, limit).labels;
            && ValidLabels(labels) && (|Encode(labels)| > limit <==> Overruns(pkt, cur, limit))
            && |Encode(labels)| <= limit + 1
  {
    var jumps := ReadIsName(pkt, cur, None, MAX_JUMPS, 0, limit);
  }

  /** The name of one letter, read into two bytes: three are written. */
  lemma OverrunExample()
    ensures var pkt: seq<byte> := [1, 97, 0];
            && ReadFrom(pkt, 0, None, MAX_JUMPS, 0, 2) == Done([[97]], 3)
            && Overruns(pkt, 0, 2) && |Encode([[97]])| == 3
  {
    var pkt: seq<byte> := [1, 97, 0];
    assert ReadFrom(pkt, 2, None, MAX_JUMPS, 2, 2) == Done([], 3);
    assert pkt[1..2] == [97];
    LabelRead(pkt, 0, None, MAX_JUMPS, 0, 2, [97]);
    assert [[97]] + [] == [[97]];
    WireSize([97], []);
  }

  /** The jumps still allowed: the first one is free, and the counter must not reach zero. */
  ghost function Left(jump: Option<nat>, loop: nat): int
  {
    if jump.None? then loop else loop - 1
  }

  /** Takes a jump, unless it is cut off, leads into the header or is one too many. */
  method FollowJump(pkt: seq<byte>, pp: nat, jump: Option<nat>, loop: nat, ghost used: nat, ghost limit: nat)
    returns (ok: bool, target: nat, newJump: Option<nat>, newLoop: nat)
    requires pp < |pkt| && IsJump(pkt[pp]) && Left(jump, loop) >= 0 && (jump.None? ==> loop == MAX_JUMPS)
    ensures newJump.Some? && (ok ==> Left(newJump, newLoop) == Left(jump, loop) - 1 >= 0)
    ensures ReadFrom(pkt, pp, jump, Left(jump, loop), used, limit) ==
            if ok then ReadFrom(pkt, target, newJump, Left(jump, loop) - 1, used, limit) else Malformed
  {
    ok, target, newLoop := false, pp, loop;
    newJump := FirstAfter(jump, pp);
    if pp + 1 >= |pkt| {
      return;
    }
    if jump.Some? {
      newLoop := loop - 1;
      if newLoop == 0 {
        return;
      }
    }
    target := Target(pkt, pp);
    ok := target >= DNS_HSIZE;
  }

  /** How reading a name can end. */
  datatype Ending = Finished | Broken | Full

  /** The terminator goes behind the destination only when the labels fill it. */
  lemma RoomForEnd(pkt: seq<byte>, cur: nat, limit: nat, done: seq<Label>, next: nat)
    requires ReadFrom(pkt, cur, None, MAX_JUMPS, 0, limit) == Done(done, next)
    requires ValidLabels(done) && |Wire(done)| <= limit
    ensures |Wire(done)| < Footprint(pkt, cur, limit)
  {
  }

  /** Copies labels and follows jumps until the name ends, is malformed or does not fit. */
  method ReadName(pkt: seq<byte>, cur: nat, dn: array<byte>, limit: nat)
    returns (ending: Ending, dp: nat, next: nat, ghost done: seq<Label>)
    requires Footprint(pkt, cur, limit) <= dn.Length
    modifies dn
    ensures ReadFrom(pkt, cur, None, MAX_JUMPS, 0, limit) ==
            if ending == Finished then Done(done, next) else if ending == Broken then Malformed else NoRoom
    ensures ending == Finished ==> ValidLabels(done) && dp == |Encode(done)| <= dn.Length && dn[..dp] == Encode(done)
    ensures Kept(dn[..], old(dn[..]), Footprint(pkt, cur, limit))
  {
    var pp: nat, jump: Option<nat>, loop: nat := cur, None, MAX_JUMPS;
    ghost var left: nat, before := MAX_JUMPS, dn[..];
    dp, next, done := 0, cur, [];
    while true
      invariant dp <= limit && Holds(dn[..], dp, done) && Kept(dn[..], before, limit)
      invariant left == Left(jump, loop) && (jump.None? ==> loop == MAX_JUMPS)
      invariant ReadFrom(pkt, cur, None, MAX_JUMPS, 0, limit) == Prepend(done, ReadFrom(pkt, pp, jump, left, dp, limit))
      decreases left, |pkt| - pp
    {
      if pp >= |pkt| {
        return Broken, dp, cur, done;
      }
      var c := pkt[pp];
      if c == 0 {
        if limit == 0 {
          return Full, dp, cur, done;
        }
        next := if jump.Some? then jump.value else pp + 1;
        Terminate(pkt, cur, dn, dp, limit, done, next, before);
        return Finished, dp + 1, next, done;
      }
      if IsJump(c) {
        var ok;
        ok, pp, jump, loop := FollowJump(pkt, pp, jump, loop, dp, limit);
        if !ok {
          return Broken, dp, cur, done;
        }
        left := left - 1;
      } else {
        if pp + 1 + c > |pkt| {
          return Broken, dp, cur, done;
        }
        if dp + c + 1 > limit {
          return Full, dp, cur, done;
        }
        done := TakeLabel(pkt, pp, dn, dp, jump, left, limit, done, before);
        dp := dp + 1 + c;
        pp := pp + 1 + c;
      }
    }
  }

  method Terminate(pkt: seq<byte>, cur: nat, dn: array<byte>, dp: nat, limit: nat, ghost done: seq<Label>,
                   ghost next: nat,
                   ghost before: seq<byte>)
    requires Footprint(pkt, cur, limit) <= dn.Length && dp <= limit && Holds(dn[..], dp, done)
    requires ReadFrom(pkt, cur, None, MAX_JUMPS, 0, limit) == Prepend(done, Done([], next))
    requires Kept(dn[..], before, limit)
    modifies dn
    ensures ReadFrom(pkt, cur, None, MAX_JUMPS, 0, limit) == Done(done, next) && ValidLabels(done)
    ensures dp + 1 == |Encode(done)| <= Footprint(pkt, cur, limit) && dn[..dp + 1] == Encode(done)
    ensures Kept(dn[..], before, Footprint(pkt, cur, limit))
  {
    assert done + [] == done;
    RoomForEnd(pkt, cur, limit, done, next);
    EndName(dn, dp, done);
  }

  /**
   Reads the name at a cursor into a buffer, and writes nothing behind the destination but, where the labels fill it,
   the terminator.
   */
  method GetName(pkt: seq<byte>, cur: nat, dn: array<byte>, dnsiz: nat) returns (r: int, next: nat)
    requires Footprint(pkt, cur, Limit(dnsiz)) <= dn.Length
    modifies dn
    ensures match ReadFrom(pkt, cur, None, MAX_JUMPS, 0, Limit(dnsiz))
            case Done(labels, after) =>
              ValidLabels(labels) && r == |Encode(labels)| <= dn.Length && dn[..r] == Encode(labels) && next == after
            case Malformed => r == -1 && next == cur
            case NoRoom => r == (if dnsiz < 255 then 0 else -1) && next == cur
    ensures Kept(dn[..], old(dn[..]), Footprint(pkt, cur, Limit(dnsiz)))
  {
    var ending, dp, after, done := ReadName(pkt, cur, dn, Limit(dnsiz));
    match ending {
      case Finished => return dp, after;
      case Broken => return -1, cur;
      case Full => return if dnsiz < DNS_MAXDN then 0 else -1, cur;
    }
  }

  /** The name at the cursor is within reach and its labels fit. */
  ghost predicate Readable(pkt: seq<byte>, cur: nat, dnsiz: nat, labels: seq<Label>)
  {
    && dnsiz > 0 && ValidLabels(labels) && |Wire(labels)| <= dnsiz && |Wire(labels)| <= 255
    && exists jumps: nat :: jumps <= 100 && Names(pkt, cur, labels, jumps)
  }

  /** Success, for any packet: exactly the names with at most 100 jumps whose labels fit are read. */
  lemma SuccessIff(pkt: seq<byte>, cur: nat, dnsiz: nat, labels: seq<Label>)
    ensures var o := ReadFrom(pkt, cur, None, MAX_JUMPS, 0, Limit(dnsiz));
            (o.Done? && o.labels == labels) <==> Readable(pkt, cur, dnsiz, labels)
  {
    var limit := Limit(dnsiz);
    var o := ReadFrom(pkt, cur, None, MAX_JUMPS, 0, limit);
    if o.Done? && o.labels == labels {
      var jumps := ReadIsName(pkt, cur, None, MAX_JUMPS, 0, limit);
      assert Names(pkt, cur, labels, jumps);
    }
    if Readable(pkt, cur, dnsiz, labels) {
      var jumps: nat :| jumps <= MAX_JUMPS && Names(pkt, cur, labels, jumps);
      NameIsRead(pkt, cur, labels, jumps, None, MAX_JUMPS, 0, limit);
    }
  }
}
