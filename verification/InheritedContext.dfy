/** The bindings of a parser, passed on in a context string, become those of the parser of an external entity. */
module InheritedContext {
  import opened Wrappers
  import opened ContextString
  import opened ExternalContext
  import opened Bindings

  /** The prefix objects of a parser: the one of the default namespace, and those with a name. */
  datatype Table = Table(default: Prefix, named: map<string, Prefix>)

  ghost predicate TableOf(ns: Namespaces, table: Table)
    reads ns`prefixes
  {
    && table.default in ns.prefixes && table.default.name == None
    && forall n <- table.named :: table.named[n] in ns.prefixes && table.named[n].name == Some(n)
  }

  /** The namespace a prefix stands for, as it is stored. */
  ghost function Shown(live: seq<Live>, p: Prefix, separator: string): Option<string>
  {
    match Meaning(live, p)
    case None => None
    case Some(uri) => Some(uri + separator)
  }

  /** That is what the object holds that the prefix points to. */
  lemma ShownIsStored(ns: Namespaces, p: Prefix)
    requires ns.Core() && p in ns.prefixes
    ensures p.binding == null <==> Shown(ns.live, p, ns.separator) == None
    ensures p.binding != null ==> Shown(ns.live, p, ns.separator) == Some(p.binding.uri)
  {
    ns.PrefixShowsNamespace(p);
  }

  /** The declarations give the prefixes of the table the namespaces of the environment. */
  ghost predicate Gives(live: seq<Live>, table: Table, separator: string, env: Env)
  {
    && env.default == Shown(live, table.default, separator) && env.prefixes.Keys == table.named.Keys
    && forall n <- table.named :: env.prefixes[n] == Shown(live, table.named[n], separator)
  }

  /** The declarations in force have passed the checks, and their texts came from a document. */
  ghost predicate FromDocument(live: seq<Live>)
  {
    AllChecked(live) && forall i :: 0 <= i < |live| ==> SEP !in live[i].uri
  }

  lemma ShownValid(live: seq<Live>, p: Prefix, separator: string)
    requires FromDocument(live) && Shown(live, p, separator).Some?
    ensures ValidBinding(p.name, Shown(live, p, separator).value, separator)
  {
    var i := InnermostIsLive(live, p);
    assert Checked(live[i]);
    BareOf(live[i].uri, separator);
  }

  ghost predicate NamesValid(env: Env)
  {
    (forall n <- env.prefixes :: ValidName(n)) && (forall n <- env.entities :: ValidName(n))
  }

  /** The context of any parser can be passed on: its environment is one that can be printed. */
  lemma GivenValid(ns: Namespaces, table: Table, env: Env)
    requires TableOf(ns, table) && Gives(ns.live, table, ns.separator, env) && FromDocument(ns.live) && NamesValid(env)
    ensures ValidEnv(env, ns.separator)
  {
    if env.default.Some? {
      ShownValid(ns.live, table.default, ns.separator);
    }
    forall n | n in env.prefixes && env.prefixes[n].Some?
      ensures ValidBinding(Some(n), env.prefixes[n].value, ns.separator)
    {
      ShownValid(ns.live, table.named[n], ns.separator);
    }
  }

  /** Applying items never takes a prefix away. */
  lemma {:induction false} PrefixesStay(env: Env, separator: string, items: seq<Item>, n: string)
    requires Apply(env, separator, items).Some? && n in env.prefixes
    ensures n in Apply(env, separator, items).value.prefixes
    decreases items
  {
    if items != [] {
      PrefixesStay(ApplyItem(env, separator, items[0]).value, separator, items[1..], n);
    }
  }

  /** The prefix object and the namespace that an item declares, if it declares one. */
  function Declares(item: Item, table: Table): Option<(Prefix, string)>
    requires item.Prefixed? ==> item.name in table.named
  {
    match item
    case Default(uri) => Some((table.default, uri))
    case Prefixed(name, uri) => Some((table.named[name], uri))
    case OpenEntity(_) => None
  }

  /** One declaration more gives one namespace more. */
  lemma GivesMore(ns: Namespaces, table: Table, live: seq<Live>, separator: string, env: Env, item: Item, d: Live)
    requires TableOf(ns, table) && Gives(live, table, separator, env) && (item.Prefixed? ==> item.name in table.named)
    requires Declares(item, table) == Some((d.prefix, d.uri)) && ApplyItem(env, separator, item).Some?
    ensures Gives(live + [d], table, separator, ApplyItem(env, separator, item).value)
  {
    MeaningMore(live, d, table.default);
    forall n | n in table.named
      ensures Shown(live + [d], table.named[n], separator) ==
              if table.named[n] == d.prefix then Some(d.uri + separator) else Shown(live, table.named[n], separator)
    {
      MeaningMore(live, d, table.named[n]);
    }
    if item.Prefixed? {
      assert ApplyItem(env, separator, item).value.prefixes.Keys == env.prefixes.Keys + {item.name};
    }
  }

  /** The bindings made for the first items, and the rest of the items to come. */
  ghost predicate Inheriting(ns: Namespaces, table: Table, env: Env, items: seq<Item>, i: nat, last: Env)
    reads ns, ns.prefixes, ns.repr
  {
    && ns.Valid() && ns.tags == [] && TableOf(ns, table) && Gives(ns.live, table, ns.separator, env)
    && i <= |items| && Apply(env, ns.separator, items[i..]) == Some(last) && last.prefixes.Keys == table.named.Keys
  }

  lemma NextItem(ns: Namespaces, table: Table, env: Env, items: seq<Item>, i: nat, last: Env)
    requires Inheriting(ns, table, env, items, i, last) && i < |items|
    ensures ApplyItem(env, ns.separator, items[i]).Some? && (items[i].Prefixed? ==> items[i].name in table.named)
    ensures Apply(ApplyItem(env, ns.separator, items[i]).value, ns.separator, items[i + 1..]) == Some(last)
  {
    assert items[i..][0] == items[i] && items[i..][1..] == items[i + 1..];
    if items[i].Prefixed? {
      PrefixesStay(ApplyItem(env, ns.separator, items[i]).value, ns.separator, items[i + 1..], items[i].name);
    }
  }

  /** Carries out one item of a context. */
  method InheritItem(ns: Namespaces, table: Table, items: seq<Item>, i: nat, memory: bool, ghost env: Env,
                     ghost last: Env)
    returns (error: Error, ghost next: Env)
    requires Inheriting(ns, table, env, items, i, last) && i < |items|
    modifies ns, ns.repr, ns.prefixes
    ensures error == NoError || (error == NoMemory && !memory)
    ensures error == NoError ==> Inheriting(ns, table, next, items, i + 1, last)
    ensures ns.prefixes == old(ns.prefixes) && fresh(ns.repr - old(ns.repr))
  {
    NextItem(ns, table, env, items, i, last);
    next := ApplyItem(env, ns.separator, items[i]).value;
    error := NoError;
    var declared := Declares(items[i], table);
    if declared.Some? {
      ghost var before := ns.live;
      var (prefix, uri) := declared.value;
      error := ns.Inherit(prefix, uri, memory);
      if error == NoError {
        GivesMore(ns, table, before, ns.separator, env, items[i], Live(ns.inherited, prefix, uri, 0));
      }
    }
  }

  /** Carries out all of them, until memory runs out. */
  method InheritItems(ns: Namespaces, table: Table, items: seq<Item>, memory: nat -> bool, ghost env: Env,
                      ghost last: Env)
    returns (error: Error)
    requires Inheriting(ns, table, env, items, 0, last)
    modifies ns, ns.repr, ns.prefixes
    ensures error == NoError || (error == NoMemory && exists i: nat :: !memory(i))
    ensures error == NoError ==> Inheriting(ns, table, last, items, |items|, last)
    ensures ns.prefixes == old(ns.prefixes) && fresh(ns.repr - old(ns.repr))
  {
    error := NoError;
    ghost var current := env;
    for i := 0 to |items|
      invariant Inheriting(ns, table, current, items, i, last) && error == NoError
      invariant ns.prefixes == old(ns.prefixes) && fresh(ns.repr - old(ns.repr))
    {
      error, current := InheritItem(ns, table, items, i, memory(i), current, last);
      if error != NoError {
        assert !memory(i);
        return;
      }
    }
    assert items[|items|..] == [];
  }

  /** Two prefixes point to namespaces with the same text, or both to none. */
  ghost predicate SameNamespace(p: Prefix, q: Prefix)
    reads p, q, p.binding, q.binding
  {
    (p.binding == null <==> q.binding == null) && (p.binding != null ==> p.binding.uri == q.binding.uri)
  }

  lemma SameText(a: string, b: string, separator: string)
    requires a + separator == b + separator
    ensures a == b
  {
    assert a == (a + separator)[..|a|] && b == (b + separator)[..|b|];
  }

  lemma MeanAlike(a: seq<Live>, s: Table, b: seq<Live>, t: Table, separator: string, env: Env)
    requires Gives(a, s, separator, env) && Gives(b, t, separator, env)
    ensures Meaning(b, t.default) == Meaning(a, s.default)
    ensures forall n <- env.prefixes :: Meaning(b, t.named[n]) == Meaning(a, s.named[n])
  {
    SameMeaning(a, s.default, b, t.default, separator);
    forall n | n in env.prefixes
      ensures Meaning(b, t.named[n]) == Meaning(a, s.named[n])
    {
      SameMeaning(a, s.named[n], b, t.named[n], separator);
    }
  }

  lemma SameMeaning(a: seq<Live>, p: Prefix, b: seq<Live>, q: Prefix, separator: string)
    requires Shown(a, p, separator) == Shown(b, q, separator)
    ensures Meaning(a, p) == Meaning(b, q)
  {
    if Meaning(a, p).Some? {
      SameText(Meaning(a, p).value, Meaning(b, q).value, separator);
    }
  }

  /** Where two parsers give the same environment, their prefixes point to the same namespaces. */
  lemma PointAlike(a: Namespaces, s: Table, b: Namespaces, t: Table, env: Env)
    requires a.Core() && TableOf(a, s) && b.Core() && TableOf(b, t) && a.separator == b.separator
    requires Gives(a.live, s, a.separator, env) && Gives(b.live, t, b.separator, env)
    ensures SameNamespace(s.default, t.default) && forall n <- s.named :: SameNamespace(s.named[n], t.named[n])
  {
    ShownIsStored(a, s.default);
    ShownIsStored(b, t.default);
    forall n | n in s.named
      ensures SameNamespace(s.named[n], t.named[n])
    {
      ShownIsStored(a, s.named[n]);
      ShownIsStored(b, t.named[n]);
    }
  }

  /** A parser without declarations is ready to take over an environment. */
  lemma ReadyToInherit(child: Namespaces, table: Table, items: seq<Item>, env: Env)
    requires child.Valid() && child.tags == [] && child.live == [] && TableOf(child, table)
    requires table.named.Keys == env.prefixes.Keys && Apply(Copied(env), child.separator, items) == Some(env)
    ensures Inheriting(child, table, Copied(env), items, 0, env)
  {
    assert items[0..] == items;
  }

  /**
   A parser for an external entity takes over the context of its parent: unless memory runs out, the default namespace
   and every prefix then stand for what they stand for in the parent.
   */
  method InheritContext(ghost parent: Namespaces, ghost theirs: Table, ghost env: Env, ghost prefixOrder: seq<string>,
                        ghost entityOrder: seq<string>, text: string, child: Namespaces, table: Table,
                        memory: nat -> bool)
    returns (error: Error)
    requires TableOf(parent, theirs) && Gives(parent.live, theirs, parent.separator, env)
    requires FromDocument(parent.live) && NamesValid(env) && Lists(env, prefixOrder, entityOrder)
    requires text == Text(Items(env, parent.separator, prefixOrder, entityOrder))
    requires child.Valid() && child.tags == [] && child.live == [] && TableOf(child, table)
    requires parent != child && child.separator == parent.separator && table.named.Keys == env.prefixes.Keys
    modifies child, child.repr, child.prefixes
    ensures error == NoError || (error == NoMemory && exists i: nat :: !memory(i))
    ensures error == NoError ==>
             child.Valid() && TableOf(child, table) && Gives(child.live, table, child.separator, env)
    ensures error == NoError ==> Meaning(child.live, table.default) == Meaning(parent.live, theirs.default)
    ensures error == NoError ==> forall n <- env.prefixes ::
              Meaning(child.live, table.named[n]) == Meaning(parent.live, theirs.named[n])
  {
    GivenValid(parent, theirs, env);
    ContextRoundTrip(env, parent.separator, prefixOrder, entityOrder);
    var items := ItemsFrom(text, 0);
    ReadyToInherit(child, table, items, env);
    error := InheritItems(child, table, items, memory, Copied(env), env);
    if error == NoError {
      MeanAlike(parent.live, theirs, child.live, table, child.separator, env);
    }
  }
}
