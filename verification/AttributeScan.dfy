/** Finding the attributes of a start tag, and which of their values need no normalizing. */
module AttributeScan {
  import opened Bytes
  import opened XmlBytes
  import opened AttributeTokens
  import opened AttributeValues

  datatype Att = Att(name: nat, valuePtr: nat, valueEnd: nat, normalized: bool)

  datatype Mode = Outside | InName | InValue(quote: byte)

  /** The attribute being read, and those read before it. */
  datatype Scan = Scan(mode: Mode, current: Att, done: seq<Att>)

  predicate StartsName(b: byte)
  {
    IsLead(b) || IsNameStart(b)
  }

  /** The byte after a position; after the last one nothing special follows. */
  function After(text: seq<byte>, ptr: nat): byte
  {
    if ptr + 1 < |text| then text[ptr + 1] else 0
  }

  /** White space in a value that is not a single plain space inside it. */
  predicate NeedsWork(text: seq<byte>, ptr: nat, valuePtr: nat, quote: byte)
    requires ptr < |text|
  {
    ptr == valuePtr || text[ptr] != SPACE || After(text, ptr) == SPACE || After(text, ptr) == quote
  }

  /** The n-th record of the caller, as it is before anything is written to it. */
  function Blank(records: seq<Att>, n: nat): Att
  {
    if n < |records| then records[n] else Att(0, 0, 0, false)
  }

  function Spoilt(s: Scan): Scan
  {
    s.(current := s.current.(normalized := false))
  }

  function ScanQuote(records: seq<Att>, s: Scan, ptr: nat, b: byte): Scan
  {
    if !s.mode.InValue? then s.(mode := InValue(b), current := s.current.(valuePtr := ptr + 1))
    else if s.mode.quote == b then Scan(Outside, Blank(records, |s.done| + 1), s.done + [s.current.(valueEnd := ptr)])
    else s
  }

  /** What the byte at ptr does. */
  function ScanByte(records: seq<Att>, text: seq<byte>, ptr: nat, s: Scan): Scan
    requires ptr < |text|
  {
    var b := text[ptr];
    if StartsName(b) then
      if s.mode == Outside then s.(mode := InName, current := s.current.(name := ptr, normalized := true)) else s
    else if b == QUOT || b == APOS then ScanQuote(records, s, ptr, b)
    else if b == AMP then Spoilt(s)
    else if IsS(b) then
      if s.mode == InName then s.(mode := Outside)
      else if s.mode.InValue? && NeedsWork(text, ptr, s.current.valuePtr, s.mode.quote) then Spoilt(s)
      else s
    else if IsLineEnd(b) then
      if s.mode == InName then s.(mode := Outside) else if s.mode.InValue? then Spoilt(s) else s
    else s
  }

  /** A greater-than sign or a slash outside a value ends the tag. */
  predicate EndsTag(b: byte, mode: Mode)
  {
    (b == GT || b == SOL) && !mode.InValue?
  }

  /** The attributes found from ptr on. */
  function ScanFrom(records: seq<Att>, text: seq<byte>, ptr: nat, s: Scan): seq<Att>
    decreases |text| - ptr
  {
    if ptr >= |text| || EndsTag(text[ptr], s.mode) then s.done
    else ScanFrom(records, text, ptr + CharLength(text[ptr]), ScanByte(records, text, ptr, s))
  }

  /** Scanning starts inside the name of the element, after the less-than sign. */
  function Attributes(records: seq<Att>, text: seq<byte>): seq<Att>
  {
    ScanFrom(records, text, 1, Scan(InName, Blank(records, 0), []))
  }

  /** The array holds the attributes done, as far as it reaches, and the one being read. */
  ghost predicate Recorded(atts: seq<Att>, records: seq<Att>, s: Scan)
  {
    && |atts| == |records|
    && (forall i :: 0 <= i < |s.done| && i < |atts| ==> atts[i] == s.done[i])
    && (|s.done| < |atts| ==> atts[|s.done|] == s.current)
    && (forall i :: |s.done| < i < |atts| ==> atts[i] == records[i])
  }

  /** Handles one byte; the attributes beyond the end of the array are only counted. */
  method ReadByte(text: seq<byte>, ptr: nat, atts: array<Att>, mode: Mode, n: nat, ghost records: seq<Att>,
                  ghost s: Scan)
    returns (newMode: Mode, more: nat)
    requires ptr < |text| && mode == s.mode && n == |s.done| && Recorded(atts[..], records, s)
    modifies atts
    ensures var t := ScanByte(records, text, ptr, s);
            newMode == t.mode && more == |t.done| && Recorded(atts[..], records, t)
  {
    var b := text[ptr];
    newMode, more := mode, n;
    var room := n < atts.Length;
    if StartsName(b) {
      if mode == Outside {
        if room {
          atts[n] := atts[n].(name := ptr, normalized := true);
        }
        newMode := InName;
      }
      return;
    }
    if b == QUOT || b == APOS {
      newMode, more := ReadQuote(ptr, atts, mode, n, b, records, s);
    } else if b == AMP {
      if room {
        atts[n] := atts[n].(normalized := false);
      }
    } else if IsS(b) {
      if mode == InName {
        newMode := Outside;
      } else if mode.InValue? && room && atts[n].normalized && NeedsWork(text, ptr, atts[n].valuePtr, mode.quote) {
        atts[n] := atts[n].(normalized := false);
      }
    } else if IsLineEnd(b) {
      if mode == InName {
        newMode := Outside;
      } else if mode.InValue? && room {
        atts[n] := atts[n].(normalized := false);
      }
    }
  }

  method ReadQuote(ptr: nat, atts: array<Att>, mode: Mode, n: nat, b: byte, ghost records: seq<Att>, ghost s: Scan)
    returns (newMode: Mode, more: nat)
    requires mode == s.mode && n == |s.done| && Recorded(atts[..], records, s)
    modifies atts
    ensures var t := ScanQuote(records, s, ptr, b);
            newMode == t.mode && more == |t.done| && Recorded(atts[..], records, t)
  {
    newMode, more := mode, n;
    if !mode.InValue? {
      if n < atts.Length {
        atts[n] := atts[n].(valuePtr := ptr + 1);
      }
      newMode := InValue(b);
    } else if mode.quote == b {
      if n < atts.Length {
        atts[n] := atts[n].(valueEnd := ptr);
      }
      newMode, more := Outside, n + 1;
    }
  }

  /** Fills the array with as many attributes as it holds, and counts them all. */
  method GetAtts(text: seq<byte>, atts: array<Att>) returns (n: nat)
    modifies atts
    ensures n == |Attributes(old(atts[..]), text)|
    ensures forall i :: 0 <= i < n && i < atts.Length ==> atts[i] == Attributes(old(atts[..]), text)[i]
  {
    var ptr: nat, mode := 1, InName;
    n := 0;
    ghost var records := atts[..];
    ghost var s := Scan(InName, Blank(records, 0), []);
    while ptr < |text|
      invariant n == |s.done| && mode == s.mode && Recorded(atts[..], records, s)
      invariant Attributes(records, text) == ScanFrom(records, text, ptr, s)
      decreases |text| - ptr
    {
      if EndsTag(text[ptr], mode) {
        return;
      }
      mode, n := ReadByte(text, ptr, atts, mode, n, records, s);
      s := ScanByte(records, text, ptr, s);
      ptr := ptr + CharLength(text[ptr]);
    }
  }
}
