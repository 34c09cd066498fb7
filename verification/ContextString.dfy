/** The context string: namespace bindings and open entities handed to the parser of an external entity. */
module ContextString {
  import opened Pieces

  const SEP: char := '\U{000C}'
  const EQ: char := '='

  /** One entry of a context string. */
  datatype Item = Default(uri: string) | Prefixed(name: string, uri: string) | OpenEntity(name: string)

  function ItemText(item: Item): string
  {
    match item
    case Default(uri) => [EQ] + uri
    case Prefixed(name, uri) => name + ([EQ] + uri)
    case OpenEntity(name) => name
  }

  /** The entries with separators between them. */
  function Text(items: seq<Item>): string
  {
    if items == [] then []
    else if |items| == 1 then ItemText(items[0])
    else ItemText(items[0]) + ([SEP] + Text(items[1..]))
  }

  /** Names have no separator and no equals sign; namespaces may have equals signs but no separator. */
  ghost predicate ValidItem(item: Item)
  {
    match item
    case Default(uri) => SEP !in uri
    case Prefixed(name, uri) => name != "" && SEP !in name && EQ !in name && SEP !in uri
    case OpenEntity(name) => name != "" && SEP !in name && EQ !in name
  }

  ghost predicate ValidItems(items: seq<Item>)
  {
    forall i :: 0 <= i < |items| ==> ValidItem(items[i])
  }

  /** The first place from s on of a separator, or of an equals sign where those count. */
  function Stop(text: string, s: nat, equals: bool): (e: nat)
    requires s <= |text|
    ensures s <= e <= |text|
    ensures forall k :: s <= k < e ==> text[k] != SEP && (equals ==> text[k] != EQ)
    ensures e < |text| ==> text[e] == SEP || (equals && text[e] == EQ)
    decreases |text| - s
  {
    if s == |text| || text[s] == SEP || (equals && text[s] == EQ) then s else Stop(text, s + 1, equals)
  }

  function PastSep(text: string, e: nat): (n: nat)
    requires e <= |text|
    ensures e <= n <= |text| && (e < |text| ==> e < n)
  {
    if e < |text| then e + 1 else e
  }

  /** The entry that starts at i, and where the next one starts. */
  function ItemAt(text: string, i: nat): (r: (Item, nat))
    requires i < |text|
    ensures i < r.1 <= |text|
  {
    var s := Stop(text, i, true);
    if s == |text| || text[s] == SEP then (OpenEntity(text[i..s]), PastSep(text, s))
    else
      var e := Stop(text, s + 1, false);
      (if s == i then Default(text[s + 1..e]) else Prefixed(text[i..s], text[s + 1..e]), PastSep(text, e))
  }

  function ItemsFrom(text: string, i: nat): seq<Item>
    decreases |text| - i
  {
    if i >= |text| then [] else [ItemAt(text, i).0] + ItemsFrom(text, ItemAt(text, i).1)
  }

  lemma {:induction false} StopAt(text: string, s: nat, equals: bool, e: nat)
    requires s <= e <= |text|
    requires forall k :: s <= k < e ==> text[k] != SEP && (equals ==> text[k] != EQ)
    requires e < |text| ==> text[e] == SEP || (equals && text[e] == EQ)
    ensures Stop(text, s, equals) == e
    decreases e - s
  {
    if s < e {
      StopAt(text, s + 1, equals, e);
    }
  }

  /** The piece ends where an entry, or its first part, ends. */
  ghost predicate EndsThere(text: string, e: nat, equals: bool)
  {
    e <= |text| && (e < |text| ==> text[e] == SEP || (equals && text[e] == EQ))
  }

  lemma StopBehind(text: string, i: nat, equals: bool, e: nat, piece: string)
    requires Stands(text, i, piece) && e == i + |piece| && EndsThere(text, e, equals)
    requires SEP !in piece && (equals ==> EQ !in piece)
    ensures Stop(text, i, equals) == e && text[i..e] == piece
  {
    assert forall k :: i <= k < e ==> text[k] == piece[k - i];
    StopAt(text, i, equals, e);
    StandsSlice(text, i, piece, e);
  }

  lemma PrefixedRead(text: string, i: nat, name: string, uri: string, s: nat, e: nat)
    requires ValidItem(Prefixed(name, uri)) && Stands(text, i, name + ([EQ] + uri))
    requires s == i + |name| && e == s + 1 + |uri| && EndsThere(text, e, false)
    ensures ItemAt(text, i) == (Prefixed(name, uri), PastSep(text, e))
  {
    StandsParts(text, i, name, [EQ] + uri);
    StandsParts(text, s, [EQ], uri);
    assert text[s + 0] == [EQ][0];
    StopBehind(text, i, true, s, name);
    StopBehind(text, s + 1, false, e, uri);
  }

  lemma DefaultRead(text: string, i: nat, uri: string, e: nat)
    requires ValidItem(Default(uri)) && Stands(text, i, [EQ] + uri) && e == i + 1 + |uri| && EndsThere(text, e, false)
    ensures ItemAt(text, i) == (Default(uri), PastSep(text, e))
  {
    StandsParts(text, i, [EQ], uri);
    assert text[i + 0] == [EQ][0];
    StopAt(text, i, true, i);
    StopBehind(text, i + 1, false, e, uri);
  }

  /** A valid entry that stands in a text, up to its end or a separator, is read back. */
  lemma ItemRead(text: string, i: nat, item: Item, e: nat)
    requires ValidItem(item) && Stands(text, i, ItemText(item)) && e == i + |ItemText(item)|
    requires EndsThere(text, e, false)
    ensures i < |text| && ItemAt(text, i) == (item, PastSep(text, e))
  {
    match item {
      case OpenEntity(name) => StopBehind(text, i, true, e, name);
      case Default(uri) => DefaultRead(text, i, uri, e);
      case Prefixed(name, uri) => PrefixedRead(text, i, name, uri, i + |name|, e);
    }
  }

  lemma ReadOne(text: string, i: nat, item: Item, next: nat)
    requires i < |text| && ItemAt(text, i) == (item, next)
    ensures ItemsFrom(text, i) == [item] + ItemsFrom(text, next)
  {
  }

  /** An entry, the separator behind it and the other entries. */
  lemma ReadFirst(text: string, i: nat, item: Item, rest: string, e: nat)
    requires ValidItem(item) && Stands(text, i, ItemText(item) + ([SEP] + rest)) && e == i + |ItemText(item)|
    ensures Stands(text, e + 1, rest) && i < |text| && ItemsFrom(text, i) == [item] + ItemsFrom(text, e + 1)
  {
    StandsParts(text, i, ItemText(item), [SEP] + rest);
    StandsParts(text, e, [SEP], rest);
    assert text[e + 0] == [SEP][0];
    ItemRead(text, i, item, e);
    ReadOne(text, i, item, e + 1);
  }

  /** A printed list of entries is read back as it was. */
  lemma {:induction false} ReadBack(text: string, i: nat, items: seq<Item>)
    requires ValidItems(items) && Stands(text, i, Text(items)) && i + |Text(items)| == |text|
    ensures ItemsFrom(text, i) == items
    decreases items
  {
    if |items| == 1 {
      ItemRead(text, i, items[0], |text|);
      ReadOne(text, i, items[0], |text|);
    } else if items != [] {
      var item, more := items[0], items[1..];
      var e := i + |ItemText(item)|;
      ReadFirst(text, i, item, Text(more), e);
      ReadBack(text, e + 1, more);
      assert [item] + more == items;
    }
  }

  /** What adding an entry at the end does to the text. */
  lemma {:induction false} TextMore(items: seq<Item>, item: Item)
    ensures Text(items + [item]) == Text(items) + (if items == [] then [] else [SEP]) + ItemText(item)
    decreases items
  {
    var all := items + [item];
    if items == [] {
      assert all[0] == item;
    } else {
      assert all[0] == items[0] && all[1..] == items[1..] + [item];
      TextMore(items[1..], item);
      if |items| == 1 {
        assert Text(items[1..] + [item]) == ItemText(item);
      }
    }
  }
}
