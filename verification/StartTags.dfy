/** Well-formed start tags: every attribute is found, and the fast path applies exactly to the values that allow it. */
module StartTags {
  import opened Bytes
  import opened XmlBytes
  import opened AttributeTokens
  import opened EntityExpansion
  import opened AttributeValues
  import opened AttributeScan
  import opened Pieces

  datatype Attribute = Attribute(space: seq<byte>, name: seq<byte>, beforeEq: seq<byte>, afterEq: seq<byte>,
                                 quote: byte, value: seq<byte>)

  datatype StartTag = StartTag(name: seq<byte>, attributes: seq<Attribute>, space: seq<byte>, empty: bool)

  predicate IsSpace(b: byte)
  {
    b == 0x20 || b == 9 || b == 0x0D || b == 0x0A
  }

  /** Letters, the underscore and the first bytes of longer characters. */
  predicate BeginsName(b: byte)
  {
    0x41 <= b <= 0x5A || b == 0x5F || 0x61 <= b <= 0x7A || 0xC0 <= b <= 0xF4
  }

  /** Also digits, the full stop, the hyphen, the colon and the other bytes of longer characters. */
  predicate InsideName(b: byte)
  {
    BeginsName(b) || 0x30 <= b <= 0x3A || b == 0x2D || b == 0x2E || 0x80 <= b <= 0xBF
  }

  ghost predicate Spaces(s: seq<byte>)
  {
    forall i :: 0 <= i < |s| ==> IsSpace(s[i])
  }

  ghost predicate NameText(s: seq<byte>)
  {
    s != [] && BeginsName(s[0]) && WholeChars(s) && forall i :: 0 <= i < |s| ==> InsideName(s[i])
  }

  ghost predicate ValidAttribute(a: Attribute)
  {
    && a.space != [] && Spaces(a.space) && NameText(a.name) && Spaces(a.beforeEq) && Spaces(a.afterEq)
    && (a.quote == QUOT || a.quote == APOS) && a.quote !in a.value && LT !in a.value && WholeChars(a.value)
  }

  ghost predicate ValidTag(tag: StartTag)
  {
    && NameText(tag.name) && Spaces(tag.space)
    && forall i :: 0 <= i < |tag.attributes| ==> ValidAttribute(tag.attributes[i])
  }

  /** Such a tag: a name, an attribute between all kinds of white space, and the end of an empty element. */
  lemma SomeTag()
    ensures ValidTag(StartTag([0x61], [Attribute([0x0D, 0x0A], [0x62], [9], [0x20], 0x27, [0x63, 0x22])], [9], true))
  {
    var a := Attribute([0x0D, 0x0A], [0x62], [9], [0x20], 0x27, [0x63, 0x22]);
    assert ValidAttribute(a);
  }

  function QuotedText(a: Attribute): seq<byte>
  {
    [a.quote] + (a.value + [a.quote])
  }

  function AssignText(a: Attribute): seq<byte>
  {
    a.beforeEq + ([EQUALS] + (a.afterEq + QuotedText(a)))
  }

  function AttributeText(a: Attribute): seq<byte>
  {
    a.space + (a.name + AssignText(a))
  }

  function AttributesText(attributes: seq<Attribute>): seq<byte>
  {
    if attributes == [] then [] else AttributeText(attributes[0]) + AttributesText(attributes[1..])
  }

  function EndText(tag: StartTag): seq<byte>
  {
    tag.space + if tag.empty then [SOL, GT] else [GT]
  }

  function TagText(tag: StartTag): seq<byte>
  {
    [LT] + (tag.name + (AttributesText(tag.attributes) + EndText(tag)))
  }

  /** The record of an attribute whose text starts at p. */
  ghost function AttOf(a: Attribute, p: nat): Att
  {
    var value := p + |a.space| + |a.name| + |a.beforeEq| + 1 + |a.afterEq| + 1;
    Att(p + |a.space|, value, value + |a.value|, Plain(a.value))
  }

  ghost function AttsOf(attributes: seq<Attribute>, p: nat): (r: seq<Att>)
    ensures |r| == |attributes|
  {
    if attributes == [] then []
    else [AttOf(attributes[0], p)] + AttsOf(attributes[1..], p + |AttributeText(attributes[0])|)
  }

  lemma {:induction false} NamePass(records: seq<Att>, text: seq<byte>, p: nat, name: seq<byte>, k: nat, s: Scan)
    requires Stands(text, p, name) && k <= |name| && s.mode == InName
    requires WholeChars(name) && forall i :: 0 <= i < |name| ==> InsideName(name[i])
    ensures ScanFrom(records, text, p + k, s) == ScanFrom(records, text, p + |name|, s)
    decreases |name| - k
  {
    if k < |name| {
      assert text[p + k] == name[k];
      var n := CharLength(name[k]);
      NamePass(records, text, p, name, k + n, s);
    }
  }

  lemma {:induction false} SpacePass(records: seq<Att>, text: seq<byte>, p: nat, spaces: seq<byte>, k: nat, s: Scan)
    requires Stands(text, p, spaces) && k <= |spaces| && Spaces(spaces) && !s.mode.InValue?
    ensures ScanFrom(records, text, p + k, s) ==
            ScanFrom(records, text, p + |spaces|, if k < |spaces| then s.(mode := Outside) else s)
    decreases |spaces| - k
  {
    if k < |spaces| {
      assert text[p + k] == spaces[k];
      SpacePass(records, text, p, spaces, k + 1, s.(mode := Outside));
    }
  }

  ghost function Marked(s: Scan, plain: bool): Scan
  {
    if plain then s else Spoilt(s)
  }

  lemma MarkedTwice(s: Scan, a: bool, b: bool)
    ensures Marked(Marked(s, a), b) == Marked(s, a && b)
  {
  }

  /** What is left of the flag of a value after its bytes from k on. */
  ghost predicate PlainFrom(value: seq<byte>, k: nat)
  {
    forall i :: k <= i < |value| ==> PlainAt(value, i)
  }

  lemma ValueByte(records: seq<Att>, text: seq<byte>, ptr: nat, value: seq<byte>, k: nat, s: Scan)
    requires s.mode.InValue? && (s.mode.quote == QUOT || s.mode.quote == APOS) && ptr == s.current.valuePtr + k
    requires k < |value| && ptr + 1 < |text| && text[ptr] == value[k] != s.mode.quote
    requires text[ptr + 1] == if k + 1 < |value| then value[k + 1] else s.mode.quote
    requires k + 1 < |value| ==> value[k + 1] != s.mode.quote
    ensures ScanByte(records, text, ptr, s) == Marked(s, PlainAt(value, k))
  {
  }

  lemma ValueStep(records: seq<Att>, text: seq<byte>, p: nat, value: seq<byte>, quote: byte, k: nat, s: Scan)
    requires Stands(text, p, value + [quote]) && k < |value| && s.mode == InValue(quote) && s.current.valuePtr == p
    requires quote == QUOT || quote == APOS
    requires quote !in value
    ensures ScanFrom(records, text, p + k, s) ==
            ScanFrom(records, text, p + (k + CharLength(value[k])), Marked(s, PlainAt(value, k)))
  {
    assert text[p + k] == (value + [quote])[k] == value[k];
    assert text[p + k + 1] == (value + [quote])[k + 1];
    ValueByte(records, text, p + k, value, k, s);
  }

  /** The continuation bytes of a character spoil nothing. */
  lemma PlainSplit(value: seq<byte>, k: nat)
    requires WholeChars(value) && k < |value|
    ensures PlainFrom(value, k) <==> PlainAt(value, k) && PlainFrom(value, k + CharLength(value[k]))
  {
    assert forall i :: k < i < k + CharLength(value[k]) ==> PlainAt(value, i);
  }

  lemma {:induction false} ValuePass(records: seq<Att>, text: seq<byte>, p: nat, value: seq<byte>, quote: byte, k: nat,
                                     s: Scan)
    requires Stands(text, p, value + [quote]) && k <= |value| && s.mode == InValue(quote) && s.current.valuePtr == p
    requires quote == QUOT || quote == APOS
    requires quote !in value && WholeChars(value)
    ensures ScanFrom(records, text, p + k, s) ==
            ScanFrom(records, text, p + |value|, Marked(s, PlainFrom(value, k)))
    decreases |value| - k
  {
    if k < |value| {
      var next := k + CharLength(value[k]);
      ValueStep(records, text, p, value, quote, k, s);
      PlainSplit(value, k);
      MarkedTwice(s, PlainAt(value, k), PlainFrom(value, next));
      ValuePass(records, text, p, value, quote, next, Marked(s, PlainAt(value, k)));
    }
  }

  /** The first character of a name starts a record. */
  lemma NameStart(records: seq<Att>, text: seq<byte>, p: nat, name: seq<byte>, s: Scan) returns (t: Scan)
    requires NameText(name) && Stands(text, p, name) && s.mode == Outside
    ensures t == s.(mode := InName, current := s.current.(name := p, normalized := true))
    ensures ScanFrom(records, text, p, s) == ScanFrom(records, text, p + |name|, t)
  {
    t := s.(mode := InName, current := s.current.(name := p, normalized := true));
    assert text[p] == name[0];
    NamePass(records, text, p, name, CharLength(name[0]), t);
  }

  /** From one state of the scan to a later one. */
  ghost predicate Leads(records: seq<Att>, text: seq<byte>, p: nat, s: Scan, q: nat, t: Scan)
  {
    ScanFrom(records, text, p, s) == ScanFrom(records, text, q, t)
  }

  lemma OpenQuote(records: seq<Att>, text: seq<byte>, p: nat, s: Scan)
    requires p < |text| && (text[p] == QUOT || text[p] == APOS) && !s.mode.InValue?
    ensures Leads(records, text, p, s, p + 1, s.(mode := InValue(text[p]), current := s.current.(valuePtr := p + 1)))
  {
  }

  lemma CloseQuote(records: seq<Att>, text: seq<byte>, p: nat, s: Scan)
    requires p < |text| && (text[p] == QUOT || text[p] == APOS) && s.mode == InValue(text[p])
    ensures Leads(records, text, p, s, p + 1,
                  Scan(Outside, Blank(records, |s.done| + 1), s.done + [s.current.(valueEnd := p)]))
  {
  }

  lemma EqualsSign(records: seq<Att>, text: seq<byte>, p: nat, s: Scan)
    requires p < |text| && text[p] == EQUALS && !s.mode.InValue?
    ensures Leads(records, text, p, s, p + 1, s)
  {
  }

  /** From the opening quote of a value past its closing quote. */
  lemma QuotedPass(records: seq<Att>, text: seq<byte>, p: nat, a: Attribute, s: Scan)
    requires ValidAttribute(a) && Stands(text, p, QuotedText(a)) && !s.mode.InValue?
    ensures var v := p + 1 + |a.value|;
            var att := s.current.(valuePtr := p + 1, valueEnd := v, normalized := s.current.normalized
                && Plain(a.value));
            Leads(records, text, p, s, v + 1, Scan(Outside, Blank(records, |s.done| + 1), s.done + [att]))
  {
    StandsParts(text, p, [a.quote], a.value + [a.quote]);
    assert text[p] == [a.quote][0];
    OpenQuote(records, text, p, s);
    var inside := s.(mode := InValue(a.quote), current := s.current.(valuePtr := p + 1));
    ValuePass(records, text, p + 1, a.value, a.quote, 0, inside);
    StandsParts(text, p + 1, a.value, [a.quote]);
    assert PlainFrom(a.value, 0) <==> Plain(a.value);
    assert text[p + 1 + |a.value|] == [a.quote][0];
    CloseQuote(records, text, p + 1 + |a.value|, Marked(inside, Plain(a.value)));
  }

  /** From after a name to the opening quote. */
  lemma AssignPass(records: seq<Att>, text: seq<byte>, p: nat, a: Attribute, s: Scan) returns (t: Scan)
    requires ValidAttribute(a) && Stands(text, p, AssignText(a)) && s.mode == InName
    ensures !t.mode.InValue? && t.current == s.current && t.done == s.done
    ensures Stands(text, p + |a.beforeEq| + 1 + |a.afterEq|, QuotedText(a))
    ensures Leads(records, text, p, s, p + |a.beforeEq| + 1 + |a.afterEq|, t)
  {
    var rest := a.afterEq + QuotedText(a);
    StandsParts(text, p, a.beforeEq, [EQUALS] + rest);
    SpacePass(records, text, p, a.beforeEq, 0, s);
    var eq := p + |a.beforeEq|;
    StandsParts(text, eq, [EQUALS], rest);
    assert text[eq] == [EQUALS][0];
    t := if a.beforeEq == [] then s else s.(mode := Outside);
    EqualsSign(records, text, eq, t);
    StandsParts(text, eq + 1, a.afterEq, QuotedText(a));
    SpacePass(records, text, eq + 1, a.afterEq, 0, t);
    t := if a.afterEq == [] then t else t.(mode := Outside);
  }

  /** From the start of a name to the closing quote of its value. */
  lemma NamedPass(records: seq<Att>, text: seq<byte>, p: nat, a: Attribute, s: Scan)
    requires ValidAttribute(a) && Stands(text, p, a.name + AssignText(a)) && s.mode == Outside && p >= |a.space|
    ensures Leads(records, text, p, s, p + |a.name + AssignText(a)|,
                  Scan(Outside, Blank(records, |s.done| + 1), s.done + [AttOf(a, p - |a.space|)]))
  {
    StandsParts(text, p, a.name, AssignText(a));
    var named := NameStart(records, text, p, a.name, s);
    var ready := AssignPass(records, text, p + |a.name|, a, named);
    QuotedPass(records, text, p + |a.name| + |a.beforeEq| + 1 + |a.afterEq|, a, ready);
  }

  /** An attribute of a tag, read up to its closing quote. */
  lemma AttributePass(records: seq<Att>, text: seq<byte>, p: nat, a: Attribute, s: Scan)
    requires ValidAttribute(a) && Stands(text, p, AttributeText(a)) && !s.mode.InValue?
    ensures Leads(records, text, p, s, p + |AttributeText(a)|,
                  Scan(Outside, Blank(records, |s.done| + 1), s.done + [AttOf(a, p)]))
  {
    StandsParts(text, p, a.space, a.name + AssignText(a));
    SpacePass(records, text, p, a.space, 0, s);
    NamedPass(records, text, p + |a.space|, a, s.(mode := Outside));
  }

  lemma MoreDone(done: seq<Att>, attributes: seq<Attribute>, p: nat)
    requires attributes != []
    ensures done + AttsOf(attributes, p) ==
            (done + [AttOf(attributes[0], p)]) + AttsOf(attributes[1..], p + |AttributeText(attributes[0])|)
  {
  }

  lemma {:induction false} AttributesPass(records: seq<Att>, text: seq<byte>, p: nat, attributes: seq<Attribute>,
                                          s: Scan)
    returns (t: Scan)
    requires Stands(text, p, AttributesText(attributes)) && !s.mode.InValue?
    requires forall i :: 0 <= i < |attributes| ==> ValidAttribute(attributes[i])
    ensures !t.mode.InValue? && t.done == s.done + AttsOf(attributes, p)
    ensures Leads(records, text, p, s, p + |AttributesText(attributes)|, t)
    decreases attributes
  {
    if attributes == [] {
      t := s;
    } else {
      var a, more := attributes[0], attributes[1..];
      MoreDone(s.done, attributes, p);
      StandsParts(text, p, AttributeText(a), AttributesText(more));
      AttributePass(records, text, p, a, s);
      var next := Scan(Outside, Blank(records, |s.done| + 1), s.done + [AttOf(a, p)]);
      t := AttributesPass(records, text, p + |AttributeText(a)|, more, next);
    }
  }

  /** After the attributes: white space and the end of the tag. */
  lemma EndPass(records: seq<Att>, text: seq<byte>, p: nat, tag: StartTag, s: Scan)
    requires Spaces(tag.space) && Stands(text, p, EndText(tag)) && !s.mode.InValue?
    ensures ScanFrom(records, text, p, s) == s.done
  {
    var last := if tag.empty then [SOL, GT] else [GT];
    StandsParts(text, p, tag.space, last);
    SpacePass(records, text, p, tag.space, 0, s);
    assert text[p + |tag.space|] == last[0];
  }

  lemma TagParts(text: seq<byte>, tag: StartTag, p: nat)
    requires text == TagText(tag) && p == 1 + |tag.name|
    ensures Stands(text, 1, tag.name) && Stands(text, p, AttributesText(tag.attributes))
    ensures Stands(text, p + |AttributesText(tag.attributes)|, EndText(tag))
  {
    var rest := AttributesText(tag.attributes) + EndText(tag);
    StandsParts(text, 0, [LT], tag.name + rest);
    StandsParts(text, 1, tag.name, rest);
    StandsParts(text, p, AttributesText(tag.attributes), EndText(tag));
  }

  lemma TagPass(records: seq<Att>, text: seq<byte>, tag: StartTag, p: nat, s: Scan)
    requires ValidTag(tag) && p == 1 + |tag.name| && s.mode == InName && s.done == []
    requires Stands(text, 1, tag.name) && Stands(text, p, AttributesText(tag.attributes))
    requires Stands(text, p + |AttributesText(tag.attributes)|, EndText(tag))
    ensures ScanFrom(records, text, 1, s) == AttsOf(tag.attributes, p)
  {
    NamePass(records, text, 1, tag.name, 0, s);
    var t := AttributesPass(records, text, p, tag.attributes, s);
    EndPass(records, text, p + |AttributesText(tag.attributes)|, tag, t);
  }

  /** On a well-formed tag every attribute is found, flagged exactly when its value is plain. */
  lemma AttributesFound(records: seq<Att>, tag: StartTag)
    requires ValidTag(tag)
    ensures Attributes(records, TagText(tag)) == AttsOf(tag.attributes, 1 + |tag.name|)
  {
    TagParts(TagText(tag), tag, 1 + |tag.name|);
    TagPass(records, TagText(tag), tag, 1 + |tag.name|, Scan(InName, Blank(records, 0), []));
  }

  /** The record shows where the value is, and whether it is plain. */
  ghost predicate Shows(text: seq<byte>, att: Att, a: Attribute)
  {
    && att.valuePtr <= att.valueEnd <= |text| && text[att.valuePtr..att.valueEnd] == a.value
    && att.normalized == Plain(a.value)
  }

  lemma {:induction false} AttsOfShow(text: seq<byte>, p: nat, attributes: seq<Attribute>, k: nat)
    requires Stands(text, p, AttributesText(attributes)) && k < |attributes|
    ensures Shows(text, AttsOf(attributes, p)[k], attributes[k])
    decreases attributes
  {
    var a, more := attributes[0], attributes[1..];
    StandsParts(text, p, AttributeText(a), AttributesText(more));
    if k > 0 {
      AttsOfShow(text, p + |AttributeText(a)|, more, k - 1);
    } else {
      ValueStands(text, p, a);
    }
  }

  lemma ValueStands(text: seq<byte>, p: nat, a: Attribute)
    requires Stands(text, p, AttributeText(a))
    ensures Shows(text, AttOf(a, p), a)
  {
    var at := p + |a.space|;
    StandsParts(text, p, a.space, a.name + AssignText(a));
    StandsParts(text, at, a.name, AssignText(a));
    StandsParts(text, at + |a.name|, a.beforeEq, [EQUALS] + (a.afterEq + QuotedText(a)));
    var eq := at + |a.name| + |a.beforeEq|;
    StandsParts(text, eq, [EQUALS], a.afterEq + QuotedText(a));
    StandsParts(text, eq + 1, a.afterEq, QuotedText(a));
    StandsParts(text, eq + 1 + |a.afterEq|, [a.quote], a.value + [a.quote]);
    StandsParts(text, eq + 1 + |a.afterEq| + 1, a.value, [a.quote]);
  }

  /**
   The fast path refines the slow one: on a well-formed tag, an attribute left normalized has a value that
   storing would give back byte for byte, whether the attribute is tokenized or not.
   */
  lemma FastPathExact(records: seq<Att>, tag: StartTag, k: nat, rules: Rules, open: set<EntityName>, isCdata: bool)
    requires ValidTag(tag) && k < |tag.attributes|
    ensures var atts := Attributes(records, TagText(tag));
            && |atts| == |tag.attributes| && atts[k].valuePtr <= atts[k].valueEnd <= |TagText(tag)|
            && var value := TagText(tag)[atts[k].valuePtr..atts[k].valueEnd];
            && value == tag.attributes[k].value
            && (atts[k].normalized ==>
                  var e := ValueOf(rules, open, value);
                  e.error == NoError && AttributeValues.Stored(isCdata, e.pieces) == value)
  {
    AttributesFound(records, tag);
    TagParts(TagText(tag), tag, 1 + |tag.name|);
    AttsOfShow(TagText(tag), 1 + |tag.name|, tag.attributes, k);
    if Plain(tag.attributes[k].value) {
      assert ValidAttribute(tag.attributes[k]);
      PlainIsStoredAsIs(rules, open, isCdata, tag.attributes[k].value);
    }
  }
}
