/** Passing the context of a parser on to the parser of an external entity. */
module ExternalContext {
  import opened Wrappers
  import opened ContextString
  import Bindings

  /**
   What the string carries: the default namespace, every prefix with its namespace if it has one, and the open
   flags of the general entities. Namespaces are stored with the separator behind them.
   */
  datatype Env = Env(default: Option<string>, prefixes: map<string, Option<string>>, entities: map<string, bool>)

  function Bare(stored: string, separator: string): string
  {
    if |stored| >= |separator| then stored[..|stored| - |separator|] else ""
  }

  function DefaultItems(env: Env, separator: string): seq<Item>
  {
    if env.default.Some? then [Default(Bare(env.default.value, separator))] else []
  }

  /** The entries for the prefixes, in the order of the table. */
  function PrefixItems(env: Env, separator: string, order: seq<string>): seq<Item>
    requires forall n <- order :: n in env.prefixes
  {
    if order == [] then []
    else
      var n := order[|order| - 1];
      PrefixItems(env, separator, order[..|order| - 1]) +
      if env.prefixes[n].Some? then [Prefixed(n, Bare(env.prefixes[n].value, separator))] else []
  }

  function EntityItems(env: Env, order: seq<string>): seq<Item>
    requires forall n <- order :: n in env.entities
  {
    if order == [] then []
    else
      var n := order[|order| - 1];
      EntityItems(env, order[..|order| - 1]) + if env.entities[n] then [OpenEntity(n)] else []
  }

  lemma PrefixItemsMore(env: Env, separator: string, order: seq<string>, n: nat)
    requires n < |order| && forall m <- order :: m in env.prefixes
    ensures PrefixItems(env, separator, order[..n + 1]) ==
            PrefixItems(env, separator, order[..n]) +
            if env.prefixes[order[n]].Some? then [Prefixed(order[n], Bare(env.prefixes[order[n]].value, separator))]
            else []
  {
    assert order[..n + 1][..n] == order[..n];
  }

  lemma EntityItemsMore(env: Env, order: seq<string>, n: nat)
    requires n < |order| && forall m <- order :: m in env.entities
    ensures EntityItems(env, order[..n + 1]) ==
            EntityItems(env, order[..n]) + if env.entities[order[n]] then [OpenEntity(order[n])] else []
  {
    assert order[..n + 1][..n] == order[..n];
  }

  function Items(env: Env, separator: string, prefixOrder: seq<string>, entityOrder: seq<string>): seq<Item>
    requires (forall n <- prefixOrder :: n in env.prefixes) && (forall n <- entityOrder :: n in env.entities)
  {
    DefaultItems(env, separator) + PrefixItems(env, separator, prefixOrder) + EntityItems(env, entityOrder)
  }

  /** What one entry of a context does. */
  function ApplyItem(env: Env, separator: string, item: Item): Option<Env>
  {
    match item
    case Default(uri) =>
      if Bindings.DeclarationError(None, uri) != Bindings.NoError then None
      else Some(env.(default := if uri == "" then None else Some(uri + separator)))
    case Prefixed(name, uri) =>
      if Bindings.DeclarationError(Some(name), uri) != Bindings.NoError then None
      else Some(env.(prefixes := env.prefixes[name := Some(uri + separator)]))
    case OpenEntity(name) =>
      if name in env.entities then Some(env.(entities := env.entities[name := true])) else Some(env)
  }

  function Apply(env: Env, separator: string, items: seq<Item>): Option<Env>
    decreases items
  {
    if items == [] then Some(env)
    else match ApplyItem(env, separator, items[0])
      case None => None
      case Some(next) => Apply(next, separator, items[1..])
  }

  lemma {:induction false} ApplyTwo(env: Env, separator: string, a: seq<Item>, b: seq<Item>)
    requires Apply(env, separator, a).Some?
    ensures Apply(env, separator, a + b) == Apply(Apply(env, separator, a).value, separator, b)
    decreases a
  {
    if a == [] {
      assert a + b == b;
    } else {
      assert (a + b)[0] == a[0] && (a + b)[1..] == a[1..] + b;
      ApplyTwo(ApplyItem(env, separator, a[0]).value, separator, a[1..], b);
    }
  }

  lemma ApplyOne(env: Env, separator: string, item: Item)
    ensures Apply(env, separator, [item]) == ApplyItem(env, separator, item)
  {
  }

  /** A copied DTD has the same prefixes and entities, but no bindings and nothing open. */
  function Copied(env: Env): Env
  {
    Env(None, map n | n in env.prefixes :: None, map n | n in env.entities :: false)
  }

  /** A namespace that a declaration can have made, stored with the separator. */
  ghost predicate ValidBinding(name: Option<string>, stored: string, separator: string)
  {
    && |stored| >= |separator| && stored[|stored| - |separator|..] == separator
    && Bare(stored, separator) != "" && SEP !in Bare(stored, separator)
    && Bindings.DeclarationError(name, Bare(stored, separator)) == Bindings.NoError
  }

  ghost predicate ValidName(name: string)
  {
    name != "" && SEP !in name && EQ !in name
  }

  ghost predicate ValidEnv(env: Env, separator: string)
  {
    && (env.default.Some? ==> ValidBinding(None, env.default.value, separator))
    && (forall n <- env.prefixes :: ValidName(n))
    && (forall n <- env.prefixes :: env.prefixes[n].Some? ==> ValidBinding(Some(n), env.prefixes[n].value, separator))
    && (forall n <- env.entities :: ValidName(n))
  }

  lemma BareOf(uri: string, separator: string)
    ensures Bare(uri + separator, separator) == uri && (uri + separator)[|uri + separator| - |separator|..] == separator
  {
  }

  /** Whatever declarations are made and entities opened, the environment stays one that can be printed. */
  lemma ApplyItemValid(env: Env, separator: string, item: Item)
    requires ValidEnv(env, separator) && ValidItem(item) && ApplyItem(env, separator, item).Some?
    ensures ValidEnv(ApplyItem(env, separator, item).value, separator)
  {
    if item.Default? {
      BareOf(item.uri, separator);
    } else if item.Prefixed? {
      BareOf(item.uri, separator);
    }
  }

  lemma {:induction false} ApplyValid(env: Env, separator: string, items: seq<Item>)
    requires ValidEnv(env, separator) && ValidItems(items) && Apply(env, separator, items).Some?
    ensures ValidEnv(Apply(env, separator, items).value, separator)
    decreases items
  {
    if items != [] {
      ApplyItemValid(env, separator, items[0]);
      ApplyValid(ApplyItem(env, separator, items[0]).value, separator, items[1..]);
    }
  }

  /** Closing an entity, or opening it, keeps it too. */
  lemma FlagValid(env: Env, separator: string, name: string, open: bool)
    requires ValidEnv(env, separator) && name in env.entities
    ensures ValidEnv(env.(entities := env.entities[name := open]), separator)
  {
  }

  lemma BareBack(stored: string, separator: string)
    requires |stored| >= |separator| && stored[|stored| - |separator|..] == separator
    ensures Bare(stored, separator) + separator == stored
  {
  }

  /** The environment after the entries of some of the prefixes. */
  function WithPrefixes(env: Env, done: seq<string>): Env
  {
    Env(env.default, map n | n in env.prefixes :: if n in done then env.prefixes[n] else None,
        map n | n in env.entities :: false)
  }

  lemma {:induction false} PrefixesApplied(env: Env, separator: string, order: seq<string>)
    requires ValidEnv(env, separator) && forall n <- order :: n in env.prefixes
    ensures Apply(WithPrefixes(env, []), separator, PrefixItems(env, separator, order)) ==
             Some(WithPrefixes(env, order))
  {
    if order != [] {
      var before, n := order[..|order| - 1], order[|order| - 1];
      PrefixesApplied(env, separator, before);
      var items := PrefixItems(env, separator, before);
      if env.prefixes[n].Some? {
        var item := Prefixed(n, Bare(env.prefixes[n].value, separator));
        ApplyTwo(WithPrefixes(env, []), separator, items, [item]);
        ApplyOne(WithPrefixes(env, before), separator, item);
        BareBack(env.prefixes[n].value, separator);
      } else {
        assert items + [] == items;
      }
      MorePrefixes(env, before, n);
      assert before + [n] == order;
    }
  }

  lemma MorePrefixes(env: Env, before: seq<string>, n: string)
    requires n in env.prefixes
    ensures WithPrefixes(env, before + [n]) ==
            WithPrefixes(env, before).(prefixes := WithPrefixes(env, before).prefixes[n := env.prefixes[n]])
    ensures env.prefixes[n] == None ==> WithPrefixes(env, before + [n]) == WithPrefixes(env, before)
  {
    var a, b := WithPrefixes(env, before).prefixes, WithPrefixes(env, before + [n]).prefixes;
    assert b == a[n := env.prefixes[n]];
    assert env.prefixes[n] == None ==> b == a;
  }

  /** The environment after the entries of some of the entities. */
  function WithEntities(env: Env, done: seq<string>): Env
  {
    env.(entities := map n | n in env.entities :: env.entities[n] && n in done)
  }

  lemma MoreEntities(env: Env, before: seq<string>, n: string)
    requires n in env.entities
    ensures env.entities[n] ==> WithEntities(env, before + [n]) ==
                                WithEntities(env, before).(entities := WithEntities(env, before).entities[n := true])
    ensures !env.entities[n] ==> WithEntities(env, before + [n]) == WithEntities(env, before)
  {
    var a, b := WithEntities(env, before).entities, WithEntities(env, before + [n]).entities;
    assert env.entities[n] ==> b == a[n := true];
    assert !env.entities[n] ==> b == a;
  }

  lemma {:induction false} EntitiesApplied(env: Env, separator: string, order: seq<string>)
    requires forall n <- order :: n in env.entities
    ensures Apply(WithEntities(env, []), separator, EntityItems(env, order)) == Some(WithEntities(env, order))
  {
    if order != [] {
      var before, n := order[..|order| - 1], order[|order| - 1];
      EntitiesApplied(env, separator, before);
      var items := EntityItems(env, before);
      if env.entities[n] {
        ApplyTwo(WithEntities(env, []), separator, items, [OpenEntity(n)]);
        ApplyOne(WithEntities(env, before), separator, OpenEntity(n));
      } else {
        assert items + [] == items;
      }
      MoreEntities(env, before, n);
      assert before + [n] == order;
    }
  }

  lemma DefaultApplied(env: Env, separator: string)
    requires ValidEnv(env, separator)
    ensures Apply(Copied(env), separator, DefaultItems(env, separator)) == Some(WithPrefixes(env, []))
  {
    assert Copied(env).prefixes == WithPrefixes(env, []).prefixes;
    if env.default.Some? {
      ApplyOne(Copied(env), separator, DefaultItems(env, separator)[0]);
      BareBack(env.default.value, separator);
    }
  }

  lemma WholeTables(env: Env, prefixOrder: seq<string>, entityOrder: seq<string>)
    requires (forall n <- env.prefixes :: n in prefixOrder) && (forall n <- env.entities :: n in entityOrder)
    ensures WithPrefixes(env, prefixOrder) == WithEntities(env, [])
    ensures WithEntities(env, entityOrder) == env
  {
    assert WithPrefixes(env, prefixOrder).prefixes == env.prefixes;
    assert WithPrefixes(env, prefixOrder).entities == WithEntities(env, []).entities;
    assert WithEntities(env, entityOrder).entities == env.entities;
  }

  /** The orders list the tables. */
  ghost predicate Lists(env: Env, prefixOrder: seq<string>, entityOrder: seq<string>)
  {
    && (forall n <- prefixOrder :: n in env.prefixes) && (forall n <- entityOrder :: n in env.entities)
    && (forall n <- env.prefixes :: n in prefixOrder) && (forall n <- env.entities :: n in entityOrder)
  }

  /** On a copied DTD, the entries of a context always apply and give back the whole environment. */
  lemma ItemsRestore(env: Env, separator: string, prefixOrder: seq<string>, entityOrder: seq<string>)
    requires ValidEnv(env, separator) && Lists(env, prefixOrder, entityOrder)
    ensures Apply(Copied(env), separator, Items(env, separator, prefixOrder, entityOrder)) == Some(env)
  {
    var a, b, c := DefaultItems(env, separator), PrefixItems(env, separator, prefixOrder),
        EntityItems(env, entityOrder);
    DefaultApplied(env, separator);
    ApplyTwo(Copied(env), separator, a, b);
    PrefixesApplied(env, separator, prefixOrder);
    WholeTables(env, prefixOrder, entityOrder);
    ApplyTwo(Copied(env), separator, a + b, c);
    EntitiesApplied(env, separator, entityOrder);
  }

  lemma {:induction false} PrefixItemsValid(env: Env, separator: string, order: seq<string>)
    requires ValidEnv(env, separator) && forall n <- order :: n in env.prefixes
    ensures ValidItems(PrefixItems(env, separator, order))
  {
    if order != [] {
      PrefixItemsValid(env, separator, order[..|order| - 1]);
    }
  }

  lemma {:induction false} EntityItemsValid(env: Env, separator: string, order: seq<string>)
    requires ValidEnv(env, separator) && forall n <- order :: n in env.entities
    ensures ValidItems(EntityItems(env, order))
  {
    if order != [] {
      EntityItemsValid(env, separator, order[..|order| - 1]);
    }
  }

  /** The context string of an environment, read by the parser of an external entity, reproduces the environment. */
  lemma ContextRoundTrip(env: Env, separator: string, prefixOrder: seq<string>, entityOrder: seq<string>)
    requires ValidEnv(env, separator) && Lists(env, prefixOrder, entityOrder)
    ensures var text := Text(Items(env, separator, prefixOrder, entityOrder));
            Apply(Copied(env), separator, ItemsFrom(text, 0)) == Some(env)
  {
    var items := Items(env, separator, prefixOrder, entityOrder);
    PrefixItemsValid(env, separator, prefixOrder);
    EntityItemsValid(env, separator, entityOrder);
    ReadBack(Text(items), 0, items);
    ItemsRestore(env, separator, prefixOrder, entityOrder);
  }

  lemma ApplyStep(env: Env, separator: string, text: string, i: nat)
    requires i < |text|
    ensures Apply(env, separator, ItemsFrom(text, i)) ==
            match ApplyItem(env, separator, ItemAt(text, i).0)
            case None => None
            case Some(next) => Apply(next, separator, ItemsFrom(text, ItemAt(text, i).1))
  {
  }

  class Dtd {
    const separator: string
    var defaultNamespace: Option<string>
    var prefixes: map<string, Option<string>>
    var entities: map<string, bool>

    function Environment(): Env
      reads this
    {
      Env(defaultNamespace, prefixes, entities)
    }

    constructor (separator: string, prefixes: map<string, Option<string>>, entities: map<string, bool>)
      ensures this.separator == separator && Environment() == Env(None, prefixes, entities)
    {
      this.separator, this.prefixes, this.entities := separator, prefixes, entities;
      defaultNamespace := None;
    }

    /** Prints the context, walking the tables in their order. */
    method GetContext(prefixOrder: seq<string>, entityOrder: seq<string>) returns (pool: string)
      requires Lists(Environment(), prefixOrder, entityOrder)
      ensures pool == Text(Items(Environment(), separator, prefixOrder, entityOrder))
    {
      pool := "";
      ghost var items := DefaultItems(Environment(), separator);
      if defaultNamespace.Some? {
        pool := [EQ] + Bare(defaultNamespace.value, separator);
      }
      var needSep := defaultNamespace.Some?;
      pool, needSep := PrintPrefixes(prefixOrder, pool, needSep, items);
      pool := PrintEntities(entityOrder, pool, needSep, items + PrefixItems(Environment(), separator, prefixOrder));
    }

    method PrintPrefixes(order: seq<string>, pool0: string, needSep0: bool, ghost before: seq<Item>)
      returns (pool: string, needSep: bool)
      requires pool0 == Text(before) && needSep0 == (before != []) && forall n <- order :: n in prefixes
      ensures var items := before + PrefixItems(Environment(), separator, order);
              pool == Text(items) && needSep == (items != [])
    {
      pool, needSep := pool0, needSep0;
      ghost var items := before;
      for i := 0 to |order|
        invariant pool == Text(items) && needSep == (items != [])
        invariant items == before + PrefixItems(Environment(), separator, order[..i])
      {
        var name := order[i];
        PrefixItemsMore(Environment(), separator, order, i);
        if prefixes[name].Some? {
          var uri := Bare(prefixes[name].value, separator);
          TextMore(items, Prefixed(name, uri));
          pool := pool + (if needSep then [SEP] else []) + (name + ([EQ] + uri));
          needSep := true;
          items := items + [Prefixed(name, uri)];
        }
      }
      assert order[..|order|] == order;
    }

    method PrintEntities(order: seq<string>, pool0: string, needSep0: bool,
                         ghost before: seq<Item>) returns (pool: string)
      requires pool0 == Text(before) && needSep0 == (before != []) && forall n <- order :: n in entities
      ensures pool == Text(before + EntityItems(Environment(), order))
    {
      var needSep;
      pool, needSep := pool0, needSep0;
      ghost var items := before;
      for i := 0 to |order|
        invariant pool == Text(items) && needSep == (items != [])
        invariant items == before + EntityItems(Environment(), order[..i])
      {
        var name := order[i];
        EntityItemsMore(Environment(), order, i);
        if entities[name] {
          TextMore(items, OpenEntity(name));
          pool := pool + (if needSep then [SEP] else []) + name;
          needSep := true;
          items := items + [OpenEntity(name)];
        }
      }
      assert order[..|order|] == order;
    }

    /** Binds a prefix, or the default namespace, as a declaration outside the document would. */
    method AddBinding(name: Option<string>, uri: string) returns (ok: bool)
      modifies this`defaultNamespace, this`prefixes
      ensures var item := if name.None? then Default(uri) else Prefixed(name.value, uri);
              var next := ApplyItem(old(Environment()), separator, item);
              ok == next.Some? && (ok ==> Environment() == next.value)
    {
      if Bindings.DeclarationError(name, uri) != Bindings.NoError {
        return false;
      }
      if name.None? {
        defaultNamespace := if uri == "" then None else Some(uri + separator);
      } else {
        prefixes := prefixes[name.value := Some(uri + separator)];
      }
      return true;
    }

    /** An entity is opened, or closed again; the context can still be printed. */
    method SetOpen(name: string, open: bool)
      requires name in entities
      modifies this`entities
      ensures Environment() == old(Environment()).(entities := old(entities)[name := open])
      ensures ValidEnv(old(Environment()), separator) ==> ValidEnv(Environment(), separator)
    {
      entities := entities[name := open];
      if ValidEnv(old(Environment()), separator) {
        FlagValid(old(Environment()), separator, name, open);
      }
    }

    /** The namespace that follows an equals sign. */
    method ReadUri(text: string, start: nat) returns (pool: string, context: nat)
      requires start <= |text|
      ensures context == Stop(text, start, false) && pool == text[start..context]
    {
      context, pool := start, "";
      while context < |text| && text[context] != SEP
        invariant start <= context <= |text| && pool == text[start..context]
        invariant Stop(text, start, false) == Stop(text, context, false)
      {
        SliceMore(text, start, context);
        pool := pool + [text[context]];
        context := context + 1;
      }
    }

    /** Carries out the entry whose first part ends at s, and moves on to the next one. */
    method TakeEntry(text: string, ghost start: nat, s: nat, pool: string) returns (ok: bool, context: nat)
      requires start < |text| && s == Stop(text, start, true) && pool == text[start..s]
      modifies this`defaultNamespace, this`prefixes, this`entities
      ensures context == ItemAt(text, start).1
      ensures var next := ApplyItem(old(Environment()), separator, ItemAt(text, start).0);
              ok == next.Some? && (ok ==> Environment() == next.value)
    {
      if s == |text| || text[s] == SEP {
        assert ItemAt(text, start).0 == OpenEntity(pool);
        if pool in entities {
          entities := entities[pool := true];
        }
        return true, if s != |text| then s + 1 else s;
      }
      var uri;
      uri, context := ReadUri(text, s + 1);
      assert ItemAt(text, start).0 == if pool == "" then Default(uri) else Prefixed(pool, uri);
      ok := AddBinding(if pool == "" then None else Some(pool), uri);
      if context < |text| {
        context := context + 1;
      }
    }

    /** Reads a context string. */
    method SetContext(text: string) returns (ok: bool)
      modifies this`defaultNamespace, this`prefixes, this`entities
      ensures var after := Apply(old(Environment()), separator, ItemsFrom(text, 0));
              ok == after.Some? && (ok ==> Environment() == after.value)
    {
      var context, s: nat, pool := 0, 0, "";
      while context < |text|
        invariant context <= s <= |text| && pool == text[context..s]
        invariant Stop(text, context, true) == Stop(text, s, true)
        invariant Apply(old(Environment()), separator, ItemsFrom(text, 0)) ==
                 Apply(Environment(), separator, ItemsFrom(text, context))
        decreases |text| - context, |text| - s
      {
        if s == |text| || text[s] == SEP || text[s] == EQ {
          ApplyStep(Environment(), separator, text, context);
          ok, context := TakeEntry(text, context, s, pool);
          if !ok {
            return;
          }
          s, pool := context, "";
        } else {
          SliceMore(text, context, s);
          pool := pool + [text[s]];
          s := s + 1;
        }
      }
      return true;
    }
  }

  lemma SliceMore(text: string, c: nat, s: nat)
    requires c <= s < |text|
    ensures text[c..s] + [text[s]] == text[c..s + 1]
  {
  }
}
