/** What the verdict on the prefixed attributes of an element says about them. */
module ExpandedNames {
  import opened NamespaceTables

  /**
   The name handed over for an attribute: namespace and local part, and with triplets the prefix behind a separator.
   */
  ghost predicate HandedOver(rules: Rules, a: Prefixed, name: string)
  {
    && a.Bound?
    && if rules.triplets then |name| == |a.name| + 1 + |a.prefix| && a.name <= name && name[|a.name|] == rules.separator
                              && name[|a.name| + 1..] == a.prefix
       else name == a.name
  }

  /**
   The comparison against an earlier attribute: the hashes are equal, and the new name either starts the earlier
   one or, with triplets, goes on behind it with the separator and the start of its prefix.
   */
  ghost predicate Collides(rules: Rules, a: Prefixed, earlier: Prefixed)
    requires a.Bound? && earlier.Bound?
  {
    && rules.hash(a.name) == rules.hash(earlier.name)
    && var m, n := |a.name|, |earlier.name|;
       if m <= n then a.name == earlier.name[..m]
       else rules.triplets && a.name[..n] == earlier.name && a.name[n] == rules.separator
            && a.name[n + 1..] <= earlier.prefix
  }

  lemma CollidesIff(rules: Rules, a: Prefixed, earlier: Prefixed)
    requires a.Bound? && earlier.Bound?
    ensures Matches(rules, a, earlier) <==> Collides(rules, a, earlier)
  {
    var stored := Stored(earlier, rules.triplets, rules.separator);
    var m, n := |a.name|, |earlier.name|;
    assert stored[..n] == earlier.name;
    if m <= n {
      assert m <= |stored| ==> stored[..m] == earlier.name[..m];
      assert a.name <= stored <==> a.name == stored[..m];
    } else if rules.triplets {
      assert stored[n] == rules.separator && stored[n + 1..] == earlier.prefix;
      assert m <= |stored| ==> stored[..m] == earlier.name + [rules.separator] + earlier.prefix[..m - n - 1];
      assert a.name == a.name[..n] + [a.name[n]] + a.name[n + 1..];
      assert a.name <= stored <==> m <= |stored| && a.name == stored[..m];
    }
  }

  ghost predicate CollidesWithEarlier(rules: Rules, attributes: seq<Prefixed>, k: nat)
    requires k < |attributes| && attributes[k].Bound?
  {
    exists j :: 0 <= j < k && attributes[j].Bound? && Collides(rules, attributes[k], attributes[j])
  }

  /** The first attributes have nothing wrong with them. */
  ghost predicate Sound(rules: Rules, attributes: seq<Prefixed>, n: nat)
    requires n <= |attributes|
  {
    forall k :: 0 <= k < n ==> attributes[k].Bound? && !CollidesWithEarlier(rules, attributes, k)
  }

  /** Every verdict names the first attribute with a fault, and which; without any, all names are handed over. */
  ghost predicate Justified(rules: Rules, attributes: seq<Prefixed>, v: Verdict)
  {
    match v
    case Accepted(names) =>
      && Sound(rules, attributes, |attributes|) && |names| == |attributes|
      && forall k :: 0 <= k < |names| ==> HandedOver(rules, attributes[k], names[k])
    case UnboundPrefix(i) => i < |attributes| && Sound(rules, attributes, i) && attributes[i].Unbound?
    case Duplicate(i) =>
      && i < |attributes| && Sound(rules, attributes, i)
      && attributes[i].Bound? && CollidesWithEarlier(rules, attributes, i)
    case NoMemory => false
  }

  lemma MatchesIff(rules: Rules, attributes: seq<Prefixed>, i: nat)
    requires i < |attributes| && AllBound(attributes[..i + 1])
    ensures AllBound(attributes[..i]) && attributes[i].Bound?
    ensures MatchesSome(rules, attributes[i], attributes[..i]) <==> CollidesWithEarlier(rules, attributes, i)
  {
    var a, done := attributes[i], attributes[..i];
    assert attributes[..i + 1][i] == a;
    assert forall j :: 0 <= j < i ==> attributes[..i + 1][j] == done[j] == attributes[j];
    if MatchesSome(rules, a, done) {
      var j :| 0 <= j < |done| && Matches(rules, a, done[j]);
      CollidesIff(rules, a, attributes[j]);
    }
    if CollidesWithEarlier(rules, attributes, i) {
      var j :| 0 <= j < i && attributes[j].Bound? && Collides(rules, a, attributes[j]);
      CollidesIff(rules, a, attributes[j]);
      assert Matches(rules, a, done[j]);
    }
  }

  lemma StoredIsHandedOver(rules: Rules, a: Prefixed)
    requires a.Bound?
    ensures HandedOver(rules, a, Stored(a, rules.triplets, rules.separator))
  {
    var name := Stored(a, rules.triplets, rules.separator);
    assert rules.triplets ==> name[..|a.name|] == a.name && name[|a.name| + 1..] == a.prefix;
  }

  lemma {:induction false} JudgeJustified(rules: Rules, attributes: seq<Prefixed>, i: nat, names: seq<string>)
    requires i <= |attributes| && AllBound(attributes[..i]) && Sound(rules, attributes, i) && |names| == i
    requires forall k :: 0 <= k < i ==> HandedOver(rules, attributes[k], names[k])
    ensures Justified(rules, attributes, Judge(rules, attributes, i, names))
    decreases |attributes| - i
  {
    if i < |attributes| && attributes[i].Bound? {
      assert attributes[..i + 1] == attributes[..i] + [attributes[i]];
      MatchesIff(rules, attributes, i);
      if !MatchesSome(rules, attributes[i], attributes[..i]) {
        StoredIsHandedOver(rules, attributes[i]);
        JudgeJustified(rules, attributes, i + 1, names + [Stored(attributes[i], rules.triplets, rules.separator)]);
      }
    }
  }

  /** At most one verdict can be justified, but for the names, so this fixes it. */
  lemma VerdictJustified(rules: Rules, attributes: seq<Prefixed>)
    ensures Justified(rules, attributes, Judge(rules, attributes, 0, []))
  {
    JudgeJustified(rules, attributes, 0, []);
  }

  lemma SameName(rules: Rules, a: Prefixed, x: string, y: string)
    requires HandedOver(rules, a, x) && HandedOver(rules, a, y)
    ensures x == y
  {
    if rules.triplets {
      var n := |a.name|;
      assert x == x[..n] + [x[n]] + x[n + 1..] && y == y[..n] + [y[n]] + y[n + 1..];
    }
  }

  /** A verdict is the one given exactly when it is justified. */
  lemma VerdictIff(rules: Rules, attributes: seq<Prefixed>, v: Verdict)
    ensures Judge(rules, attributes, 0, []) == v <==> Justified(rules, attributes, v)
  {
    VerdictJustified(rules, attributes);
    var given := Judge(rules, attributes, 0, []);
    if Justified(rules, attributes, v) && v.Accepted? && given.Accepted? {
      forall k | 0 <= k < |v.names|
        ensures v.names[k] == given.names[k]
      {
        SameName(rules, attributes[k], v.names[k], given.names[k]);
      }
    }
  }
}
