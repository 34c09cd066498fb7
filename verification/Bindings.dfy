/**
 Namespace bindings. Every declaration hides the binding its prefix had and remembers it; an end tag
 undoes its element's declarations, latest first.
 */
module Bindings {
  import opened Wrappers

  const XML_NAMESPACE := "http://www.w3.org/XML/1998/namespace"
  const XMLNS_NAMESPACE := "http://www.w3.org/2000/xmlns/"

  datatype Error = NoError | NoMemory | UndeclaringPrefix | ReservedPrefixXmlns | ReservedPrefixXml
                 | ReservedNamespaceUri | TagMismatch | AsyncEntity

  class Prefix {
    /** The default namespace is the one prefix without a name. */
    const name: Option<string>
    var binding: Binding?

    constructor (name: Option<string>)
      ensures this.name == name && binding == null
    {
      this.name := name;
      binding := null;
    }
  }

  class Binding {
    var prefix: Prefix
    var nextTagBinding: Binding?
    var prevPrefixBinding: Binding?
    var uri: string

    constructor (prefix: Prefix, uri: string)
      ensures this.prefix == prefix && this.uri == uri
    {
      this.prefix := prefix;
      this.uri := uri;
      nextTagBinding, prevPrefixBinding := null, null;
    }
  }

  /** The checks on a declaration, in the order they are made. */
  function DeclarationError(name: Option<string>, uri: string): Error
  {
    if uri == "" && name.Some? then UndeclaringPrefix
    else if name == Some("xmlns") then ReservedPrefixXmlns
    else if (name == Some("xml")) != (uri == XML_NAMESPACE) then
      if name == Some("xml") then ReservedPrefixXml else ReservedNamespaceUri
    else if uri == XMLNS_NAMESPACE then ReservedNamespaceUri
    else NoError
  }

  function Outcome(name: Option<string>, uri: string, memory: bool): Error
  {
    if DeclarationError(name, uri) != NoError then DeclarationError(name, uri)
    else if memory then NoError else NoMemory
  }

  /** A declaration in force, the object that holds it and the depth of its element. */
  datatype Live = Live(b: Binding, prefix: Prefix, uri: string, level: nat)

  /** A declaration that the checks let through. */
  ghost predicate Checked(d: Live)
  {
    DeclarationError(d.prefix.name, d.uri) == NoError
  }

  /** The latest declaration of a prefix, if any. */
  ghost function Innermost(live: seq<Live>, p: Prefix): Option<Live>
  {
    if live == [] then None
    else if live[|live| - 1].prefix == p then Some(live[|live| - 1])
    else Innermost(live[..|live| - 1], p)
  }

  /** The namespace a prefix stands for, if it has one. */
  ghost function Meaning(live: seq<Live>, p: Prefix): Option<string>
  {
    match Innermost(live, p)
    case None => None
    case Some(d) => if d.uri == "" && p.name == None then None else Some(d.uri)
  }

  /** A declaration changes what its own prefix stands for. */
  lemma MeaningMore(live: seq<Live>, d: Live, p: Prefix)
    ensures Meaning(live + [d], p) ==
            if p != d.prefix then Meaning(live, p) else if d.uri == "" && p.name == None then None else Some(d.uri)
  {
    assert (live + [d])[..|live|] == live;
  }

  /** The binding a prefix points to: none when its latest declaration undeclares the default namespace. */
  ghost function Current(live: seq<Live>, p: Prefix): Binding?
  {
    match Innermost(live, p)
    case None => null
    case Some(d) => if d.uri == "" && p.name == None then null else d.b
  }

  /** The latest declaration of an element. */
  ghost function Head(live: seq<Live>, level: nat): Binding?
  {
    if live == [] then null
    else if live[|live| - 1].level == level then live[|live| - 1].b
    else Head(live[..|live| - 1], level)
  }

  /** The binding a declaration hid. */
  ghost function Hidden(live: seq<Live>, i: nat): Binding?
    requires i < |live|
  {
    Current(live[..i], live[i].prefix)
  }

  /** The declaration before it in the same element. */
  ghost function Next(live: seq<Live>, i: nat): Binding?
    requires i < |live|
  {
    Head(live[..i], live[i].level)
  }

  ghost predicate Is(d: Live, hidden: Binding?, next: Binding?, separator: string)
    reads d.b
  {
    d.b.prefix == d.prefix && d.b.uri == d.uri + separator && d.b.prevPrefixBinding == hidden
        && d.b.nextTagBinding == next
  }

  /** What the i-th declaration's object holds. */
  ghost predicate Holds(live: seq<Live>, i: nat, separator: string)
    requires i < |live|
    reads live[i].b
  {
    Is(live[i], Hidden(live, i), Next(live, i), separator)
  }

  ghost predicate Distinct(live: seq<Live>)
  {
    forall i, j :: 0 <= i < j < |live| ==> live[i].b != live[j].b
  }

  ghost predicate Nested(live: seq<Live>)
  {
    forall i, j :: 0 <= i < j < |live| ==> live[i].level <= live[j].level
  }

  ghost function Objects(live: seq<Live>): set<Binding>
  {
    set i | 0 <= i < |live| :: live[i].b
  }

  ghost function First(list: seq<Binding>): Binding?
  {
    if list == [] then null else list[0]
  }

  /** The declarations outside an element: those left when its own are undone. */
  ghost function Outside(live: seq<Live>, level: nat): (r: seq<Live>)
    ensures r <= live
    ensures r != [] ==> r[|r| - 1].level != level
  {
    if live != [] && live[|live| - 1].level == level then Outside(live[..|live| - 1], level) else live
  }

  /** What one more declaration changes. */
  lemma Declared(live: seq<Live>, d: Live, level: nat)
    ensures Objects(live + [d]) == Objects(live) + {d.b}
    ensures Innermost(live + [d], d.prefix) == Some(d)
    ensures Head(live + [d], level) == if d.level == level then d.b else Head(live, level)
  {
    var after := live + [d];
    assert after[|live|] == d && after[..|live|] == live;
    forall i | 0 <= i < |live|
      ensures live[i].b in Objects(after)
    {
      assert after[i] == live[i];
    }
  }

  /** What was declared before still holds. */
  lemma DeclaredHolds(live: seq<Live>, d: Live, separator: string)
    requires forall i :: 0 <= i < |live| ==> Holds(live, i, separator)
    requires Is(d, Current(live, d.prefix), Head(live, d.level), separator)
    ensures forall i :: 0 <= i <= |live| ==> Holds(live + [d], i, separator)
  {
    forall i | 0 <= i <= |live|
      ensures Holds(live + [d], i, separator)
    {
      assert (live + [d])[..i] == live[..i];
      assert i < |live| ==> Holds(live, i, separator);
    }
  }

  lemma DeclaredOrder(live: seq<Live>, d: Live)
    requires Distinct(live) && Nested(live) && d.b !in Objects(live)
    requires forall i :: 0 <= i < |live| ==> live[i].level <= d.level
    ensures Distinct(live + [d]) && Nested(live + [d])
  {
    assert forall i :: 0 <= i < |live| ==> live[i].b in Objects(live);
  }

  lemma OtherPrefixes(live: seq<Live>, d: Live, prefixes: set<Prefix>)
    ensures forall p <- prefixes :: p != d.prefix ==> Current(live + [d], p) == Current(live, p)
  {
    assert (live + [d])[..|live|] == live;
  }

  /** What undoing the latest declaration changes. */
  lemma Undone(live: seq<Live>, prefixes: set<Prefix>, separator: string)
    requires live != [] && Distinct(live) && Nested(live)
    requires forall i :: 0 <= i < |live| ==> Holds(live, i, separator)
    ensures var before, d := live[..|live| - 1], live[|live| - 1];
            && Distinct(before) && Nested(before)
            && Objects(live) == Objects(before) + {d.b} && d.b !in Objects(before)
            && (forall p <- prefixes :: p != d.prefix ==> Current(live, p) == Current(before, p))
            && (forall i :: 0 <= i < |before| ==> Holds(before, i, separator))
  {
    var before, d := live[..|live| - 1], live[|live| - 1];
    assert live == before + [d];
    Declared(before, d, 0);
    OtherPrefixes(before, d, prefixes);
    forall i | 0 <= i < |before|
      ensures Holds(before, i, separator)
    {
      assert Holds(live, i, separator) && before[..i] == live[..i];
    }
  }

  /** The head of the deepest element's list is the latest declaration, if that is the element's own. */
  lemma {:induction false} HeadIsLast(live: seq<Live>, level: nat)
    requires Nested(live) && forall i :: 0 <= i < |live| ==> live[i].level <= level
    ensures Head(live, level) != null <==> live != [] && live[|live| - 1].level == level
    ensures live != [] && live[|live| - 1].level == level ==> Head(live, level) == live[|live| - 1].b
  {
    if live != [] && live[|live| - 1].level < level {
      HeadIsLast(live[..|live| - 1], level);
    }
  }

  /** A namespace declaration of a start tag. */
  datatype Declaration = Declaration(prefix: Prefix, uri: string)

  /** The error of the first declaration that fails, from the n-th on; they are tried in order. */
  function FirstError(declarations: seq<Declaration>, memory: nat -> bool, n: nat): Error
    requires n <= |declarations|
    decreases |declarations| - n
  {
    if n == |declarations| then NoError
    else
      var error := Outcome(declarations[n].prefix.name, declarations[n].uri, memory(n));
      if error != NoError then error else FirstError(declarations, memory, n + 1)
  }

  ghost predicate Declares(d: Live, declaration: Declaration, level: nat)
  {
    d.prefix == declaration.prefix && d.uri == declaration.uri && d.level == level && Checked(d)
  }

  /** The first of the declarations of an element have come into force. */
  ghost predicate AddedTo(before: seq<Live>, live: seq<Live>, declarations: seq<Declaration>, level: nat)
  {
    && before <= live && |live| <= |before| + |declarations|
    && (forall i :: 0 <= i < |before| ==> before[i].level <= level)
    && (forall i :: |before| <= i < |live| ==> Declares(live[i], declarations[i - |before|], level))
  }

  lemma OneAdded(entry: seq<Live>, before: seq<Live>, declarations: seq<Declaration>, level: nat, d: Live)
    requires AddedTo(entry, before, declarations, level) && |before| < |entry| + |declarations|
    requires Declares(d, declarations[|before| - |entry|], level)
    ensures AddedTo(entry, before + [d], declarations, level)
  {
  }

  /** All declarations from the n-th on belong to one depth, and those before it to lower depths. */
  ghost predicate EndsAt(live: seq<Live>, n: nat, level: nat)
  {
    && n <= |live|
    && (forall i :: 0 <= i < n ==> live[i].level < level)
    && (forall i :: n <= i < |live| ==> live[i].level == level)
  }

  lemma {:induction false} OutsideIs(live: seq<Live>, n: nat, level: nat)
    requires EndsAt(live, n, level)
    ensures Outside(live, level) == live[..n]
  {
    if n < |live| {
      OutsideIs(live[..|live| - 1], n, level);
    }
  }

  /** Declarations of a deeper element leave the lists of the others alone. */
  lemma {:induction false} HeadBelow(live: seq<Live>, n: nat, level: nat, k: nat)
    requires n <= |live| && k < level && forall i :: n <= i < |live| ==> live[i].level == level
    ensures Head(live, k) == Head(live[..n], k)
  {
    if n < |live| {
      HeadBelow(live[..|live| - 1], n, level, k);
      assert live[..|live| - 1][..n] == live[..n];
    } else {
      assert live[..n] == live;
    }
  }

  /** The latest declaration of a prefix is one of the declarations. */
  lemma {:induction false} InnermostIsLive(live: seq<Live>, p: Prefix) returns (i: nat)
    requires Innermost(live, p).Some?
    ensures i < |live| && live[i] == Innermost(live, p).value && live[i].prefix == p
    ensures forall j :: i < j < |live| ==> live[j].prefix != p
  {
    if live[|live| - 1].prefix == p {
      i := |live| - 1;
    } else {
      i := InnermostIsLive(live[..|live| - 1], p);
    }
  }

  datatype Tag = Tag(rawName: string, bindings: Binding?)

  /** The declarations of the k-th open element start at entered[k], and its list at the latest of them. */
  ghost predicate Laid(live: seq<Live>, entered: seq<nat>, tags: seq<Tag>, inherited: Binding?)
  {
    && |entered| == |tags| && inherited == Head(live, 0)
    && (forall i :: 0 <= i < |live| ==> live[i].level <= |tags|)
    && (forall k :: 0 <= k < |tags| ==> Splits(live, entered[k], k) && tags[k].bindings == Head(live, k + 1))
  }

  /** The first n declarations are those of depth up to k. */
  ghost predicate Splits(live: seq<Live>, n: nat, k: nat)
  {
    n <= |live| && forall i :: 0 <= i < |live| ==> (live[i].level <= k <==> i < n)
  }

  lemma {:induction false} NoneOfLevel(live: seq<Live>, level: nat)
    requires forall i :: 0 <= i < |live| ==> live[i].level < level
    ensures Head(live, level) == null
  {
    if live != [] {
      NoneOfLevel(live[..|live| - 1], level);
    }
  }

  /** One more element: the others keep their lists. */
  lemma Opened(live: seq<Live>, after: seq<Live>, declarations: seq<Declaration>, entered: seq<nat>, tags: seq<Tag>,
               inherited: Binding?, rawName: string)
    requires Laid(live, entered, tags, inherited) && AddedTo(live, after, declarations, |tags| + 1)
    ensures Laid(after, entered + [|live|], tags + [Tag(rawName, Head(after, |tags| + 1))], inherited)
  {
    assert after[..|live|] == live;
    forall k: nat | k <= |tags|
      ensures Head(after, k) == Head(live, k)
    {
      HeadBelow(after, |live|, |tags| + 1, k);
    }
    forall k | 0 <= k < |tags|
      ensures Splits(after, entered[k], k)
    {
      assert Splits(live, entered[k], k);
    }
    assert Splits(after, |live|, |tags|);
  }

  lemma SplitsBefore(live: seq<Live>, n: nat, e: nat, k: nat, top: nat)
    requires Splits(live, n, top) && Splits(live, e, k) && k <= top
    ensures e <= n && Splits(live[..n], e, k)
  {
    assert n < |live| ==> live[n].level > k && n >= e;
  }

  lemma {:induction false} ClosedHead(live: seq<Live>, n: nat, top: nat, k: nat)
    requires Splits(live, n, top) && (forall i :: 0 <= i < |live| ==> live[i].level <= top + 1) && k <= top
    ensures Head(live[..n], k) == Head(live, k)
  {
    HeadBelow(live, n, top + 1, k);
  }

  lemma ClosedTag(live: seq<Live>, n: nat, top: nat, e: nat, k: nat)
    requires Splits(live, n, top) && (forall i :: 0 <= i < |live| ==> live[i].level <= top + 1)
    requires Splits(live, e, k) && k < top
    ensures Splits(live[..n], e, k) && Head(live[..n], k + 1) == Head(live, k + 1)
  {
    SplitsBefore(live, n, e, k, top);
    ClosedHead(live, n, top, k + 1);
  }

  /** One element less: what lies outside it is what there was when it was opened. */
  lemma Closed(live: seq<Live>, entered: seq<nat>, tags: seq<Tag>, inherited: Binding?, n: nat, e: nat)
    returns (outside: seq<Live>)
    requires Laid(live, entered, tags, inherited) && n + 1 == |tags| && e == entered[n]
    ensures tags[n].bindings == Head(live, n + 1) && forall i :: 0 <= i < |live| ==> live[i].level <= n + 1
    ensures e <= |live| && outside == live[..e] == Outside(live, n + 1)
    ensures Laid(outside, entered[..n], tags[..n], inherited)
  {
    outside := live[..e];
    assert Splits(live, e, n);
    OutsideIs(live, e, n + 1);
    ClosedHead(live, e, n, 0);
    forall k | 0 <= k < n
      ensures Splits(live[..e], entered[k], k) && tags[k].bindings == Head(live[..e], k + 1)
    {
      ClosedTag(live, e, n, entered[k], k);
    }
  }

  /** The stack has one more element, of the given name. */
  ghost predicate Pushed(before: seq<Tag>, after: seq<Tag>, rawName: string)
  {
    |after| == |before| + 1 && after == before + [after[|before|]] && after[|before|].rawName == rawName
  }

  /** Before any element, all declarations are outside. */
  lemma BaseLaid(live: seq<Live>, entered: seq<nat>, tags: seq<Tag>, inherited: Binding?)
    requires entered == [] && tags == [] && inherited == Head(live, 0)
    requires forall i :: 0 <= i < |live| ==> live[i].level == 0
    ensures Laid(live, entered, tags, inherited)
  {
  }

  lemma AddedUndone(live: seq<Live>, after: seq<Live>, declarations: seq<Declaration>, level: nat)
    requires AddedTo(live, after, declarations, level) && forall i :: 0 <= i < |live| ==> live[i].level < level
    ensures Outside(after, level) == live
  {
    OutsideIs(after, |live|, level);
  }

  /** What the events of a document do to the declarations in force; see StartTag, EmptyElement and EndTag. */
  datatype Scope = Scope(live: seq<Live>, entered: seq<nat>)

  /** What a start tag declares has passed the checks. */
  ghost predicate Starts(s: Scope, t: Scope)
  {
    && s.live <= t.live && t.entered == s.entered + [|s.live|]
    && forall i :: |s.live| <= i < |t.live| ==> Checked(t.live[i])
  }

  ghost predicate Ends(s: Scope, t: Scope)
  {
    && s.entered != [] && s.entered[|s.entered| - 1] <= |s.live|
    && t.entered == s.entered[..|s.entered| - 1] && t.live == s.live[..s.entered[|s.entered| - 1]]
  }

  ghost predicate Follows(s: Scope, t: Scope)
  {
    Starts(s, t) || Ends(s, t) || s == t
  }

  ghost predicate Within(s: Scope, t: Scope)
  {
    && |s.entered| <= |t.entered| && s.live <= t.live
    && (|t.entered| == |s.entered| ==> t.live == s.live)
    && (|t.entered| > |s.entered| ==> t.entered[|s.entered|] == |s.live|)
    && forall k :: |s.entered| <= k < |t.entered| ==> t.entered[k] >= |s.live|
  }

  lemma StaysWithin(s: Scope, t: Scope, u: Scope)
    requires Within(s, t) && Follows(t, u) && |u.entered| >= |s.entered|
    requires (Starts(t, u) || |t.entered| > |s.entered| || t == u)
    ensures Within(s, u)
  {
    if Ends(t, u) && !Starts(t, u) && t != u {
      var n := |t.entered| - 1;
      assert t.entered[n] >= |s.live|;
      assert s.live <= u.live;
    }
  }

  /** Whatever complete elements a run contains, after it the environment is the one before it. */
  lemma {:induction false} CompleteElementsRestore(run: seq<Scope>, n: nat)
    requires n < |run| && forall i :: 0 <= i < |run| - 1 ==> Follows(run[i], run[i + 1])
    requires forall i :: 0 <= i < |run| ==> |run[i].entered| >= |run[0].entered|
    ensures Within(run[0], run[n])
    ensures |run[n].entered| == |run[0].entered| ==> run[n].live == run[0].live
  {
    if n > 0 {
      CompleteElementsRestore(run, n - 1);
      assert Follows(run[n - 1], run[n - 1 + 1]);
      StaysWithin(run[0], run[n - 1], run[n]);
    }
  }

  ghost predicate AllChecked(live: seq<Live>)
  {
    forall i :: 0 <= i < |live| ==> Checked(live[i])
  }

  /** Over any run of events only declarations that passed the checks are in force. */
  lemma {:induction false} RunChecked(run: seq<Scope>, n: nat)
    requires n < |run| && forall i :: 0 <= i < |run| - 1 ==> Follows(run[i], run[i + 1])
    requires AllChecked(run[0].live)
    ensures AllChecked(run[n].live)
  {
    if n > 0 {
      RunChecked(run, n - 1);
      assert Follows(run[n - 1], run[n - 1 + 1]);
    }
  }

  lemma AddedStarts(live: seq<Live>, after: seq<Live>, declarations: seq<Declaration>, level: nat, entered: seq<nat>)
    requires AddedTo(live, after, declarations, level)
    ensures Starts(Scope(live, entered), Scope(after, entered + [|live|]))
  {
  }

  class Namespaces {
    const separator: string
    var freeBindingList: Binding?
    var tags: seq<Tag>
    var inherited: Binding?
    ghost var live: seq<Live>
    ghost var free: seq<Binding>
    ghost var prefixes: set<Prefix>
    ghost var entered: seq<nat>
    ghost var repr: set<Binding>

    /** The free objects form a chain and are not in use. */
    ghost predicate FreeList()
      reads this`free, this`freeBindingList, this`live, this`repr, repr
    {
      && (forall i :: 0 <= i < |free| ==> free[i] in repr)
      && freeBindingList == First(free)
      && (forall i :: 0 <= i < |free| ==> free[i].nextTagBinding == First(free[i + 1..]))
      && (forall i, j :: 0 <= i < j < |free| ==> free[i] != free[j])
      && (forall i :: 0 <= i < |free| ==> free[i] !in Objects(live))
    }

    /** The declarations in force and where those of the open elements start. */
    ghost function ToScope(): Scope
      reads this
    {
      Scope(live, entered)
    }

    /** Every prefix points to its latest declaration, and every declaration to what it hid. */
    ghost predicate Linked()
      reads this`live, this`prefixes, this`repr, prefixes, repr
    {
      && (forall i :: 0 <= i < |live| ==> live[i].b in repr)
      && Distinct(live) && Nested(live)
      && (forall i :: 0 <= i < |live| ==> Holds(live, i, separator))
      && (forall i :: 0 <= i < |live| ==> live[i].prefix in prefixes)
      && (forall p <- prefixes :: p.binding == Current(live, p))
    }

    ghost predicate Core()
      reads this`free, this`freeBindingList, this`live, this`prefixes, this`repr, prefixes, repr
    {
      FreeList() && Linked()
    }

    /** Between events the declarations in force belong to the open elements. */
    ghost predicate Valid()
      reads this, prefixes, repr
    {
      Core() && Laid(live, entered, tags, inherited)
    }

    /** The environment: the namespace of a prefix, or none. */
    ghost function Namespace(p: Prefix): Option<string>
      reads this`live
    {
      Meaning(live, p)
    }

    /** Takes an object that was used before. */
    method Recycle() returns (b: Binding)
      requires Core() && freeBindingList != null
      modifies this`free, this`freeBindingList
      ensures Core() && b == old(freeBindingList) && b !in Objects(live) && b !in free && b in repr
    {
      b := freeBindingList;
      freeBindingList := b.nextTagBinding;
      free := free[1..];
    }

    /** A fresh object or a recycled one. */
    method NewBinding(prefix: Prefix, uri: string, hidden: Binding?, next: Binding?) returns (b: Binding)
      requires Core()
      modifies this`free, this`freeBindingList, this`repr, repr
      ensures Core()
      ensures b !in Objects(live) && b !in free && b in repr
      ensures b.prefix == prefix && b.uri == uri && b.prevPrefixBinding == hidden && b.nextTagBinding == next
      ensures fresh(repr - old(repr))
    {
      if freeBindingList != null {
        b := Recycle();
        b.uri := uri;
        b.prefix := prefix;
      } else {
        b := new Binding(prefix, uri);
        repr := repr + {b};
      }
      assert b !in Objects(live) && b !in free;
      b.prevPrefixBinding, b.nextTagBinding := hidden, next;
    }

    /** Makes an object the latest declaration of its prefix. */
    method Attach(b: Binding, prefix: Prefix, uri: string, level: nat)
      requires Core() && prefix in prefixes
      requires forall i :: 0 <= i < |live| ==> live[i].level <= level
      requires b !in Objects(live) && b !in free && b in repr
      requires Is(Live(b, prefix, uri, level), Current(live, prefix), Head(live, level), separator)
      modifies this`live, prefix
      ensures Core() && Head(live, level) == b && live == old(live) + [Live(b, prefix, uri, level)]
    {
      ghost var d := Live(b, prefix, uri, level);
      Declared(live, d, level);
      OtherPrefixes(live, d, prefixes);
      DeclaredOrder(live, d);
      DeclaredHolds(live, d, separator);
      prefix.binding := if uri == "" && prefix.name == None then null else b;
      live := live + [d];
    }

    /** Declares a prefix for the element at the given depth, whose declarations so far start at head. */
    method AddBinding(prefix: Prefix, uri: string, level: nat, head: Binding?, memory: bool)
      returns (error: Error, newHead: Binding?)
      requires Core() && prefix in prefixes && head == Head(live, level)
      requires forall i :: 0 <= i < |live| ==> live[i].level <= level
      modifies this`live, this`free, this`freeBindingList, this`repr, repr, prefix
      ensures Core() && newHead == Head(live, level)
      ensures error == Outcome(prefix.name, uri, memory)
      ensures error != NoError ==> live == old(live)
      ensures error == NoError ==> newHead != null && live == old(live) + [Live(newHead, prefix, uri, level)]
      ensures fresh(repr - old(repr))
    {
      error, newHead := DeclarationError(prefix.name, uri), head;
      if error != NoError {
        return;
      }
      if !memory {
        return NoMemory, head;
      }
      newHead := NewBinding(prefix, uri + separator, prefix.binding, head);
      Attach(newHead, prefix, uri, level);
    }

    /** Undoes the latest declaration and keeps its object for later use. */
    method Detach(b: Binding)
      requires Core() && live != [] && live[|live| - 1].b == b
      modifies this`live, this`free, this`freeBindingList, b, live[|live| - 1].prefix
      ensures Core() && live == old(live[..|live| - 1]) && free == [b] + old(free)
    {
      Unlink(b);
      Release(b);
    }

    /** The prefix shows the declaration behind the latest one again. */
    method Unlink(b: Binding)
      requires Core() && live != [] && live[|live| - 1].b == b
      modifies this`live, live[|live| - 1].prefix
      ensures Core() && live == old(live[..|live| - 1]) && b !in Objects(live) && b !in free && b in repr
    {
      Undone(live, prefixes, separator);
      assert Holds(live, |live| - 1, separator);
      b.prefix.binding := b.prevPrefixBinding;
      live := live[..|live| - 1];
    }

    method Release(b: Binding)
      requires Core() && b !in Objects(live) && b !in free && b in repr
      modifies this`free, this`freeBindingList, b`nextTagBinding
      ensures Core() && free == [b] + old(free)
    {
      b.nextTagBinding := freeBindingList;
      freeBindingList := b;
      free := [b] + free;
    }

    /** The declarations are an outer part of the given ones, and the list starts at the latest of the element. */
    ghost predicate Unwinding(entry: seq<Live>, level: nat, bindings: Binding?)
      reads this, prefixes, repr
    {
      && Core() && live <= entry && Outside(live, level) == Outside(entry, level)
      && bindings == Head(live, level)
      && (bindings != null <==> live != [] && live[|live| - 1].level == level)
      && (bindings != null ==> bindings == live[|live| - 1].b)
    }

    method UnwindOne(b: Binding, level: nat, ghost entry: seq<Live>) returns (next: Binding?)
      requires Unwinding(entry, level, b) && forall i :: 0 <= i < |live| ==> live[i].level <= level
      modifies this`live, this`free, this`freeBindingList, b, live[|live| - 1].prefix
      ensures Unwinding(entry, level, next) && free == [b] + old(free) && |live| < old(|live|)
    {
      assert Holds(live, |live| - 1, separator);
      next := b.nextTagBinding;
      Detach(b);
      HeadIsLast(live, level);
    }

    /** Undoes the declarations of the deepest element, latest first. */
    method FreeBindings(head: Binding?, level: nat)
      requires Core() && head == Head(live, level)
      requires forall i :: 0 <= i < |live| ==> live[i].level <= level
      modifies this`live, this`free, this`freeBindingList, repr, prefixes
      ensures Core() && live == Outside(old(live), level)
    {
      var bindings := head;
      HeadIsLast(live, level);
      ghost var entry := live;
      while bindings != null
        invariant Unwinding(entry, level, bindings)
        decreases |live|
      {
        bindings := UnwindOne(bindings, level, entry);
      }
    }

    constructor (separator: string, prefixes: set<Prefix>)
      requires forall p <- prefixes :: p.binding == null
      ensures Valid() && live == [] && tags == [] && this.prefixes == prefixes && this.separator == separator
    {
      this.separator, this.prefixes := separator, prefixes;
      freeBindingList, tags, inherited := null, [], null;
      live, free, entered, repr := [], [], [], {};
    }

    /** A prefix points to its namespace in the environment, or to nothing. */
    lemma PrefixShowsNamespace(p: Prefix)
      requires Core() && p in prefixes
      ensures p.binding == null <==> Namespace(p) == None
      ensures p.binding != null ==> p.binding.prefix == p && p.binding.uri == Namespace(p).value + separator
    {
      if Innermost(live, p).Some? {
        var i := InnermostIsLive(live, p);
        assert Holds(live, i, separator);
      }
    }

    /** Makes the declarations of one element, up to the first that is in error. */
    method Declare(declarations: seq<Declaration>, level: nat, head: Binding?, memory: nat -> bool)
      returns (error: Error, newHead: Binding?)
      requires Declaring(live, declarations, level, 0, head)
      requires forall n :: 0 <= n < |declarations| ==> declarations[n].prefix in prefixes
      modifies this`live, this`free, this`freeBindingList, this`repr, repr, prefixes
      ensures |old(live)| <= |live| && fresh(repr - old(repr))
      ensures Declaring(old(live), declarations, level, |live| - |old(live)|, newHead)
      ensures error == FirstError(declarations, memory, 0)
      ensures error == NoError <==> |live| == old(|live|) + |declarations|
    {
      error, newHead := NoError, head;
      ghost var entry := live;
      for n := 0 to |declarations|
        invariant Declaring(entry, declarations, level, n, newHead) && error == NoError
        invariant FirstError(declarations, memory, 0) == FirstError(declarations, memory, n)
        invariant fresh(repr - old(repr))
      {
        error, newHead := DeclareNext(declarations, n, level, newHead, memory(n), entry);
        if error != NoError {
          return;
        }
      }
    }

    /** The first n declarations have been made, and the list starts at the latest of them. */
    ghost predicate Declaring(entry: seq<Live>, declarations: seq<Declaration>, level: nat, n: nat, head: Binding?)
      reads this`free, this`freeBindingList, this`live, this`prefixes, this`repr, prefixes, repr
    {
      && Core() && head == Head(live, level) && (forall i :: 0 <= i < |live| ==> live[i].level <= level)
      && AddedTo(entry, live, declarations, level) && |live| == |entry| + n
    }

    method DeclareNext(declarations: seq<Declaration>, n: nat, level: nat, head: Binding?, memory: bool,
                       ghost entry: seq<Live>)
      returns (error: Error, newHead: Binding?)
      requires n < |declarations| && declarations[n].prefix in prefixes
      requires Declaring(entry, declarations, level, n, head)
      modifies this`live, this`free, this`freeBindingList, this`repr, repr, declarations[n].prefix
      ensures error == Outcome(declarations[n].prefix.name, declarations[n].uri, memory)
      ensures Declaring(entry, declarations, level, if error == NoError then n + 1 else n, newHead)
      ensures fresh(repr - old(repr))
    {
      ghost var before := live;
      var d := declarations[n];
      error, newHead := AddBinding(d.prefix, d.uri, level, head, memory);
      if error == NoError {
        OneAdded(entry, before, declarations, level, Live(newHead, d.prefix, d.uri, level));
      }
    }

    /** The declarations of a new element. */
    method DeclareOwn(declarations: seq<Declaration>, level: nat, memory: nat -> bool) returns (error: Error,
                      head: Binding?)
      requires Core() && forall i :: 0 <= i < |live| ==> live[i].level < level
      requires forall n :: 0 <= n < |declarations| ==> declarations[n].prefix in prefixes
      modifies this`live, this`free, this`freeBindingList, this`repr, repr, prefixes
      ensures Core() && head == Head(live, level) && fresh(repr - old(repr))
      ensures AddedTo(old(live), live, declarations, level)
      ensures error == FirstError(declarations, memory, 0)
      ensures error == NoError <==> |live| == old(|live|) + |declarations|
    {
      NoneOfLevel(live, level);
      error, head := Declare(declarations, level, null, memory);
    }

    method DeclareAndUndo(declarations: seq<Declaration>, level: nat, memory: nat -> bool) returns (error: Error)
      requires Core() && forall i :: 0 <= i < |live| ==> live[i].level < level
      requires forall n :: 0 <= n < |declarations| ==> declarations[n].prefix in prefixes
      modifies this`live, this`free, this`freeBindingList, this`repr, repr, prefixes
      ensures Core() && fresh(repr - old(repr)) && live == old(live)
      ensures error == FirstError(declarations, memory, 0)
    {
      ghost var before := live;
      var head;
      error, head := DeclareOwn(declarations, level, memory);
      AddedUndone(before, live, declarations, level);
      FreeBindings(head, level);
    }

    /** A binding inherited from outside the document, before any element. */
    method Inherit(prefix: Prefix, uri: string, memory: bool) returns (error: Error)
      requires Valid() && tags == [] && prefix in prefixes
      modifies this`live, this`free, this`freeBindingList, this`repr, this`inherited, repr, prefix
      ensures Valid() && fresh(repr - old(repr))
      ensures error == Outcome(prefix.name, uri, memory)
      ensures if error == NoError then inherited != null && live == old(live) + [Live(inherited, prefix, uri, 0)]
              else live == old(live)
    {
      inherited, error := AddOuter(prefix, uri, memory);
    }

    method AddOuter(prefix: Prefix, uri: string, memory: bool) returns (head: Binding?, error: Error)
      requires Valid() && tags == [] && prefix in prefixes
      modifies this`live, this`free, this`freeBindingList, this`repr, repr, prefix
      ensures Core() && fresh(repr - old(repr)) && Laid(live, entered, tags, head)
      ensures error == Outcome(prefix.name, uri, memory)
      ensures if error == NoError then head != null && live == old(live) + [Live(head, prefix, uri, 0)]
              else live == old(live) && head == inherited
    {
      error, head := AddBinding(prefix, uri, 0, inherited, memory);
      BaseLaid(live, entered, tags, head);
    }

    /** A start tag. On an error the parser stops for good, so only success is followed by other events. */
    method StartTag(rawName: string, declarations: seq<Declaration>, memory: nat -> bool) returns (error: Error)
      requires Valid() && forall n :: 0 <= n < |declarations| ==> declarations[n].prefix in prefixes
      modifies this`live, this`free, this`freeBindingList, this`repr, this`tags, this`entered, repr, prefixes
      ensures Valid() && fresh(repr - old(repr))
      ensures AddedTo(old(live), live, declarations, |old(tags)| + 1)
      ensures error == FirstError(declarations, memory, 0)
      ensures error == NoError <==> |live| == old(|live|) + |declarations|
      ensures Pushed(old(tags), tags, rawName) && Starts(old(ToScope()), ToScope())
    {
      ghost var before := live;
      var head;
      error, head := DeclareOwn(declarations, |tags| + 1, memory);
      Opened(before, live, declarations, entered, tags, inherited, rawName);
      AddedStarts(before, live, declarations, |tags| + 1, entered);
      PushTag(Tag(rawName, head), |before|);
    }

    /** Puts an element on the stack, with where its declarations start. */
    method PushTag(tag: Tag, ghost start: nat)
      requires Core() && Laid(live, entered + [start], tags + [tag], inherited)
      modifies this`tags, this`entered
      ensures Valid() && tags == old(tags) + [tag] && entered == old(entered) + [start]
    {
      tags, entered := tags + [tag], entered + [start];
    }

    /** An empty element: its declarations are undone at once, also when one of them is in error. */
    method EmptyElement(declarations: seq<Declaration>, memory: nat -> bool) returns (error: Error)
      requires Valid() && forall n :: 0 <= n < |declarations| ==> declarations[n].prefix in prefixes
      modifies this`live, this`free, this`freeBindingList, this`repr, repr, prefixes
      ensures Valid() && fresh(repr - old(repr)) && live == old(live) && Follows(old(ToScope()), ToScope())
      ensures error == FirstError(declarations, memory, 0)
    {
      error := DeclareAndUndo(declarations, |tags| + 1, memory);
    }

    /** An end tag: the environment is again the one before the start tag. */
    method EndTag(rawName: string, startTagLevel: nat) returns (error: Error)
      requires Valid() && startTagLevel <= |tags|
      modifies this`live, this`free, this`freeBindingList, this`tags, this`entered, repr, prefixes
      ensures error == (if startTagLevel == old(|tags|) then AsyncEntity
                        else if old(tags)[old(|tags|) - 1].rawName != rawName then TagMismatch else NoError)
      ensures error != NoError ==> live == old(live)
      ensures error == NoError ==> Valid() && tags == old(tags)[..old(|tags|) - 1]
      ensures error == NoError ==> entered == old(entered)[..old(|tags|) - 1]
      ensures error == NoError ==> live == old(live)[..old(entered)[old(|tags|) - 1]] && Ends(old(ToScope()), ToScope())
    {
      if startTagLevel == |tags| {
        return AsyncEntity;
      }
      var tag := tags[|tags| - 1];
      if tag.rawName != rawName {
        tags := tags[..|tags| - 1];
        return TagMismatch;
      }
      CloseElement();
      return NoError;
    }

    /** Takes the innermost element from the stack and undoes its declarations. */
    method CloseElement()
      requires Valid() && tags != []
      modifies this`live, this`free, this`freeBindingList, this`tags, this`entered, repr, prefixes
      ensures Valid() && tags == old(tags)[..old(|tags|) - 1] && entered == old(entered)[..old(|tags|) - 1]
      ensures live == old(live)[..old(entered)[old(|tags|) - 1]]
    {
      var n := |tags| - 1;
      ghost var outside := Closed(live, entered, tags, inherited, n, entered[n]);
      var tag := PopTag();
      Leave(tag.bindings, n + 1, outside);
    }

    method PopTag() returns (tag: Tag)
      requires Core() && tags != [] && |entered| == |tags|
      modifies this`tags, this`entered
      ensures Core() && tag == old(tags)[old(|tags|) - 1]
      ensures tags == old(tags)[..old(|tags|) - 1] && entered == old(entered)[..old(|tags|) - 1]
    {
      tag, tags := tags[|tags| - 1], tags[..|tags| - 1];
      entered := entered[..|entered| - 1];
    }

    /** Undoes the declarations of an element that has left the stack. */
    method Leave(head: Binding?, level: nat, ghost outside: seq<Live>)
      requires Core() && head == Head(live, level) && forall i :: 0 <= i < |live| ==> live[i].level <= level
      requires outside == Outside(live, level) && Laid(outside, entered, tags, inherited)
      modifies this`live, this`free, this`freeBindingList, repr, prefixes
      ensures Valid() && live == outside
    {
      FreeBindings(head, level);
      assert live == outside;
    }
  }
}
