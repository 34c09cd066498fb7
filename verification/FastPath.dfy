/** The fast path for attribute values is taken exactly where it may be: where normalizing changes nothing. */
module FastPaths {
  import opened Wrappers
  import opened Bytes
  import opened XmlBytes
  import opened AttributeTokens
  import opened EntityExpansion
  import opened AttributeValues
  import opened AttributeScan
  import opened StartTags
  import opened AttributeTexts

  /** No white space among the bytes. */
  ghost predicate Dark(bytes: seq<byte>)
  {
    forall i :: 0 <= i < |bytes| ==> !IsS(bytes[i]) && !IsLineEnd(bytes[i])
  }

  ghost predicate DarkPieces(pieces: seq<Piece>)
  {
    forall i :: 0 <= i < |pieces| && pieces[i].Raw? ==> Dark(pieces[i].bytes)
  }

  lemma {:induction false} DataDark(text: seq<byte>, start: nat, ptr: nat)
    requires WholeChars(text) && start <= ptr <= |text| && Dark(text[start..ptr])
    ensures Dark(text[start..DataFrom(text, ptr).next])
    decreases |text| - ptr
  {
    if ptr < |text| && !EndsData(text[ptr]) {
      PastCharDark(text, start, ptr);
      DataDark(text, start, PastChar(text, ptr));
    }
  }

  lemma PastCharDark(text: seq<byte>, start: nat, ptr: nat)
    requires WholeChars(text) && start <= ptr < |text| && Dark(text[start..ptr]) && !EndsData(text[ptr])
    ensures Dark(text[start..PastChar(text, ptr)])
  {
    var next := PastChar(text, ptr);
    forall i | start <= i < next
      ensures !IsS(text[i]) && !IsLineEnd(text[i])
    {
      if i < ptr {
        assert text[i] == text[start..ptr][i - start];
      }
    }
  }

  lemma ActionDark(rules: Rules, text: seq<byte>, ptr: nat, t: Token)
    requires WholeChars(text) && AMP !in text && t == ValueToken(rules.naming, text, ptr)
    ensures !TokenAction(rules, text, ptr, t).Enter?
    ensures TokenAction(rules, text, ptr, t).Emit? ==> DarkPieces(TokenAction(rules, text, ptr, t).pieces)
  {
    if t.kind == DataChars {
      assert text[ptr..ptr] == [];
      PastCharDark(text, ptr, ptr);
      DataDark(text, ptr, PastChar(text, ptr));
    }
  }

  lemma {:induction false} RestDark(rules: Rules, open: set<EntityName>, text: seq<byte>, ptr: nat)
    requires WholeChars(text) && AMP !in text
    ensures DarkPieces(Rest(rules, open, text, ptr).pieces)
    decreases |text| - ptr
  {
    var a := TokenAction(rules, text, ptr, ValueToken(rules.naming, text, ptr));
    ActionDark(rules, text, ptr, ValueToken(rules.naming, text, ptr));
    if a.Emit? {
      RestDark(rules, open, text, a.next);
      RestEmits(rules, open, text, ptr, a.pieces, a.next);
    } else {
      RestHalts(rules, open, text, ptr, a.error);
    }
  }

  /** The only white space stored is the space character. */
  ghost predicate Bright(v: seq<byte>)
  {
    forall i :: 0 <= i < |v| && (IsS(v[i]) || IsLineEnd(v[i])) ==> v[i] == SPACE
  }

  lemma {:induction false} StoreBright(pool: seq<byte>, pieces: seq<Piece>)
    requires Bright(pool) && DarkPieces(pieces)
    ensures Bright(Store(false, pool, pieces))
    decreases pieces
  {
    if pieces != [] {
      StoreBright(StorePiece(false, pool, pieces[0]), pieces[1..]);
    }
  }

  lemma StoredIs(rules: Rules, open: set<EntityName>, text: seq<byte>)
    requires WholeChars(text) && AMP !in text
    ensures var v := AttributeValues.Stored(false, ValueOf(rules, open, text).pieces);
            Bright(v) && Tidy(v)
  {
    var pieces := ValueOf(rules, open, text).pieces;
    RestDark(rules, open, text, 0);
    StoreBright([], pieces);
    forall i | 0 <= i < |pieces| && pieces[i].Raw?
      ensures SPACE !in pieces[i].bytes
    {
      assert Dark(pieces[i].bytes);
    }
    StoreSingleSpaced([], pieces);
  }

  lemma TidyIsPlain(v: seq<byte>)
    requires Bright(v) && Tidy(v) && AMP !in v
    ensures AttributeValues.Plain(v)
  {
    forall i | 0 <= i < |v|
      ensures PlainAt(v, i)
    {
      assert IsS(v[i]) || IsLineEnd(v[i]) ==> v[i] == SPACE;
      assert i + 1 < |v| && v[i + 1] == SPACE ==> v[i] != SPACE;
    }
  }

  /** A value without references is plain exactly when tokenizing gives it back as it is. */
  lemma PlainIff(rules: Rules, open: set<EntityName>, text: seq<byte>)
    requires WholeChars(text) && AMP !in text && LT !in text
    ensures AttributeValues.Plain(text) <==>
            AttributeValues.Stored(false, ValueOf(rules, open, text).pieces) == text
  {
    StoredIs(rules, open, text);
    if AttributeValues.Plain(text) {
      PlainIsStoredAsIs(rules, open, false, text);
    }
    if AttributeValues.Stored(false, ValueOf(rules, open, text).pieces) == text {
      TidyIsPlain(text);
    }
  }

  /**
   So the scanner's mark is exact: it is left on just the values without references that tokenizing would not change.
   */
  lemma MarkExact(records: seq<Att>, tag: StartTag, k: nat, rules: Rules, open: set<EntityName>)
    requires ValidTag(tag) && k < |tag.attributes|
    ensures var atts, value := Attributes(records, TagText(tag)), tag.attributes[k].value;
            && |atts| == |tag.attributes|
            && (atts[k].normalized <==>
                AMP !in value && AttributeValues.Stored(false, ValueOf(rules, open, value).pieces) == value)
  {
    var value := tag.attributes[k].value;
    assert ValidAttribute(tag.attributes[k]);
    AttributesFound(records, tag);
    TagParts(TagText(tag), tag, 1 + |tag.name|);
    AttsOfShow(TagText(tag), 1 + |tag.name|, tag.attributes, k);
    if AMP in value {
      var i :| 0 <= i < |value| && value[i] == AMP;
      assert !PlainAt(value, i);
    } else {
      PlainIff(rules, open, value);
    }
  }
}
