/**
 The table that finds attributes with equal expanded names. It is never cleared: every element uses a
 new version number, and a slot with another version counts as free.
 */
module NamespaceTables {
  import opened Probing
  import opened Wrappers

  const INIT_ATTS_VERSION: nat := 0xFFFF_FFFF
  const WORD_BITS := 32

  type Hash = string -> nat

  /** A prefixed attribute: its prefix has no binding, or the name is the bound URI and the local part. */
  datatype Prefixed = Unbound | Bound(name: string, prefix: string)

  datatype NsAtt = NsAtt(version: nat, hash: nat, uriName: string)

  datatype Verdict = Accepted(names: seq<string>) | Duplicate(at: nat) | UnboundPrefix(at: nat) | NoMemory

  /** The name handed to the application: with triplets on, a separator and the prefix follow. */
  function Stored(a: Prefixed, triplets: bool, separator: char): string
    requires a.Bound?
  {
    if triplets then a.name + [separator] + a.prefix else a.name
  }

  datatype Rules = Rules(hash: Hash, triplets: bool, separator: char)

  /** The comparison made against one earlier attribute: equal hashes and one name a prefix of the other. */
  predicate Matches(rules: Rules, a: Prefixed, earlier: Prefixed)
    requires a.Bound? && earlier.Bound?
  {
    rules.hash(a.name) == rules.hash(earlier.name) && a.name <= Stored(earlier, rules.triplets, rules.separator)
  }

  ghost predicate AllBound(done: seq<Prefixed>)
  {
    forall j :: 0 <= j < |done| ==> done[j].Bound?
  }

  ghost predicate MatchesSome(rules: Rules, a: Prefixed, done: seq<Prefixed>)
    requires a.Bound? && AllBound(done)
  {
    exists j :: 0 <= j < |done| && Matches(rules, a, done[j])
  }

  /** Attributes are judged in order, each against those before it. */
  ghost function Judge(rules: Rules, attributes: seq<Prefixed>, i: nat, names: seq<string>): Verdict
    requires i <= |attributes| && AllBound(attributes[..i])
    decreases |attributes| - i
  {
    if i == |attributes| then Accepted(names)
    else if attributes[i].Unbound? then UnboundPrefix(i)
    else if MatchesSome(rules, attributes[i], attributes[..i]) then Duplicate(i)
    else Judge(rules, attributes, i + 1, names + [Stored(attributes[i], rules.triplets, rules.separator)])
  }

  /** An element is accepted exactly when every prefix is bound and no name matches an earlier one. */
  lemma {:induction false} AcceptedIff(rules: Rules, attributes: seq<Prefixed>, i: nat, names: seq<string>)
    requires i <= |attributes| && AllBound(attributes[..i])
    ensures Judge(rules, attributes, i, names).Accepted? <==>
              && AllBound(attributes)
              && forall k :: i <= k < |attributes| ==> !MatchesSome(rules, attributes[k], attributes[..k])
    decreases |attributes| - i
  {
    if i == |attributes| {
      assert attributes[..i] == attributes;
    } else if attributes[i].Bound? {
      AcceptedIff(rules, attributes, i + 1, names + [Stored(attributes[i], rules.triplets, rules.separator)]);
    }
  }

  /** Equal expanded names are reported, whatever the hash function. */
  lemma EqualNamesReported(rules: Rules, attributes: seq<Prefixed>, j: nat, k: nat)
    requires j < k < |attributes| && attributes[j].Bound? && attributes[k].Bound?
    requires attributes[j].name == attributes[k].name
    ensures !Judge(rules, attributes, 0, []).Accepted?
  {
    AcceptedIff(rules, attributes, 0, []);
    if AllBound(attributes) {
      assert attributes[..k][j] == attributes[j];
      assert Matches(rules, attributes[k], attributes[..k][j]);
    }
  }

  /** With no two names of the same hash, only equal names are reported. */
  lemma DistinctNamesAccepted(rules: Rules, attributes: seq<Prefixed>)
    requires AllBound(attributes)
    requires forall j, k :: 0 <= j < k < |attributes| ==>
                              rules.hash(attributes[j].name) != rules.hash(attributes[k].name)
    ensures Judge(rules, attributes, 0, []).Accepted?
  {
    AcceptedIff(rules, attributes, 0, []);
    forall k | 0 <= k < |attributes|
      ensures !MatchesSome(rules, attributes[k], attributes[..k])
    {
      forall j | 0 <= j < k
        ensures !Matches(rules, attributes[k], attributes[..k][j])
      {
        assert attributes[..k][j] == attributes[j];
      }
    }
  }

  /** The comparison stops at the end of the new name: under a colliding hash a proper prefix is reported too. */
  lemma PrefixReported(rules: Rules)
    requires rules.hash("ab") == rules.hash("a")
    ensures Judge(rules, [Bound("ab", "p"), Bound("a", "q")], 0, []) == Duplicate(1)
  {
    var attributes := [Bound("ab", "p"), Bound("a", "q")];
    assert attributes[..1] == [attributes[0]];
    assert "a" <= "ab";
    assert Matches(rules, attributes[1], attributes[..1][0]);
  }

  type Slots = seq<NsAtt>

  ghost predicate PathCurrent(atts: Slots, power: nat, version: nat, h: nat, k: nat)
    requires power >= 3 && |atts| == Pow2(power)
  {
    forall m :: 0 <= m < k ==> atts[Probe(h, power, m)].version == version
  }

  ghost predicate OnPath(atts: Slots, power: nat, version: nat, h: nat, slot: nat)
    requires power >= 3 && |atts| == Pow2(power)
  {
    exists k: nat :: PathCurrent(atts, power, version, h, k) && Probe(h, power, k) == slot
  }

  ghost predicate FiledAt(rules: Rules, atts: Slots, power: nat, version: nat, a: Prefixed, slot: nat)
    requires power >= 3 && |atts| == Pow2(power) && a.Bound?
  {
    && slot < |atts|
    && atts[slot] == NsAtt(version, rules.hash(a.name), Stored(a, rules.triplets, rules.separator))
    && OnPath(atts, power, version, rules.hash(a.name), slot)
  }

  ghost predicate OnlyThese(atts: Slots, version: nat, slots: seq<nat>)
  {
    forall s: nat :: s < |atts| ==> atts[s].version > version || s in slots
  }

  /** The slots of the current version are those of the attributes done so far, each where it can be found. */
  ghost predicate Filed(rules: Rules, atts: Slots, power: nat, version: nat, done: seq<Prefixed>, slots: seq<nat>)
  {
    && power >= 3 && |atts| == Pow2(power) && AllBound(done) && |slots| == |done|
    && (forall j :: 0 <= j < |done| ==> FiledAt(rules, atts, power, version, done[j], slots[j]))
    && OnlyThese(atts, version, slots)
  }

  ghost function SetOf(s: seq<nat>): (r: set<nat>)
    ensures forall x :: x in r <==> x in s
  {
    set x | x in s
  }

  lemma {:induction false} SetOfSize(s: seq<nat>)
    ensures |SetOf(s)| <= |s|
  {
    if s != [] {
      SetOfSize(s[1..]);
      assert SetOf(s) == SetOf(s[1..]) + {s[0]};
    } else {
      assert SetOf(s) == {};
    }
  }

  lemma {:induction false} SubsetSize(a: set<nat>, b: set<nat>)
    requires a <= b
    ensures |a| <= |b|
  {
    if a != {} {
      var x :| x in a;
      SubsetSize(a - {x}, b - {x});
    }
  }

  /** No walk meets more current slots than attributes are done. */
  lemma WalkEnds(rules: Rules, atts: Slots, power: nat, version: nat, done: seq<Prefixed>, slots: seq<nat>, h: nat,
                 k: nat)
    requires Filed(rules, atts, power, version, done, slots)
    requires PathCurrent(atts, power, version, h, k) && k <= Pow2(power)
    ensures k <= |done|
  {
    ProbedSize(h, power, k);
    SetOfSize(slots);
    assert Probed(h, power, k) <= SetOf(slots);
    SubsetSize(Probed(h, power, k), SetOf(slots));
  }

  /** A current slot on a walk holds an attribute done before. */
  lemma WalkMeets(rules: Rules, atts: Slots, power: nat, version: nat, done: seq<Prefixed>, slots: seq<nat>,
                  a: Prefixed, slot: nat)
    requires Filed(rules, atts, power, version, done, slots) && a.Bound?
    requires slot < |atts| && atts[slot].version == version
    requires rules.hash(a.name) == atts[slot].hash && a.name <= atts[slot].uriName
    ensures MatchesSome(rules, a, done)
  {
    assert slot in slots;
    var j :| 0 <= j < |slots| && slots[j] == slot;
    assert FiledAt(rules, atts, power, version, done[j], slots[j]);
    assert Matches(rules, a, done[j]);
  }

  /** The first k probes meet current slots that do not match. */
  ghost predicate Passed(atts: Slots, power: nat, version: nat, h: nat, name: string, k: nat)
    requires power >= 3 && |atts| == Pow2(power)
  {
    && PathCurrent(atts, power, version, h, k)
    && forall m :: 0 <= m < k ==> !(h == atts[Probe(h, power, m)].hash && name <= atts[Probe(h, power, m)].uriName)
  }

  lemma PassedStep(atts: Slots, power: nat, version: nat, h: nat, name: string, k: nat)
    requires power >= 3 && |atts| == Pow2(power) && Passed(atts, power, version, h, name, k)
    requires atts[Probe(h, power, k)].version == version
    requires !(h == atts[Probe(h, power, k)].hash && name <= atts[Probe(h, power, k)].uriName)
    ensures Passed(atts, power, version, h, name, k + 1)
    ensures Probe(h, power, k + 1) == Back(Probe(h, power, k), ProbeStep(h, power), Pow2(power))
  {
  }

  /** The walk of an attribute has passed k slots and stands at slot j. */
  ghost predicate Walked(atts: Slots, power: nat, version: nat, h: nat, name: string, j: nat, k: nat)
    requires power >= 3 && |atts| == Pow2(power)
  {
    k < Pow2(power) && j == Probe(h, power, k) && Passed(atts, power, version, h, name, k)
  }

  lemma WalkedOn(rules: Rules, atts: Slots, power: nat, version: nat, done: seq<Prefixed>, slots: seq<nat>,
                 h: nat, name: string, j: nat, k: nat)
    requires Filed(rules, atts, power, version, done, slots) && |done| < Pow2(power)
    requires Walked(atts, power, version, h, name, j, k)
    requires atts[j].version == version && !(h == atts[j].hash && name <= atts[j].uriName)
    ensures Walked(atts, power, version, h, name, Back(j, ProbeStep(h, power), Pow2(power)), k + 1)
  {
    PassedStep(atts, power, version, h, name, k);
    WalkEnds(rules, atts, power, version, done, slots, h, k + 1);
  }

  /** When the walk ends at a free slot, no attribute done before matches. */
  lemma WalkMisses(rules: Rules, atts: Slots, power: nat, version: nat, done: seq<Prefixed>, slots: seq<nat>,
                   a: Prefixed, k: nat)
    requires Filed(rules, atts, power, version, done, slots) && a.Bound?
    requires Passed(atts, power, version, rules.hash(a.name), a.name, k)
    requires atts[Probe(rules.hash(a.name), power, k)].version != version
    ensures !MatchesSome(rules, a, done)
  {
    forall j | 0 <= j < |done|
      ensures !Matches(rules, a, done[j])
    {
      assert FiledAt(rules, atts, power, version, done[j], slots[j]);
    }
  }

  lemma PathKept(atts: Slots, power: nat, version: nat, h: nat, slot: nat, at: nat, e: NsAtt)
    requires power >= 3 && |atts| == Pow2(power) && OnPath(atts, power, version, h, slot)
    requires at < |atts| && e.version == version
    ensures OnPath(atts[at := e], power, version, h, slot)
  {
    var k: nat :| PathCurrent(atts, power, version, h, k) && Probe(h, power, k) == slot;
    assert PathCurrent(atts[at := e], power, version, h, k);
  }

  /** Filing an attribute in the free slot its walk ends at. */
  lemma FileStep(rules: Rules, atts: Slots, power: nat, version: nat, done: seq<Prefixed>, slots: seq<nat>,
                 a: Prefixed, k: nat)
    requires Filed(rules, atts, power, version, done, slots) && a.Bound?
    requires PathCurrent(atts, power, version, rules.hash(a.name), k)
    requires atts[Probe(rules.hash(a.name), power, k)].version != version
    ensures var slot := Probe(rules.hash(a.name), power, k);
            var e := NsAtt(version, rules.hash(a.name), Stored(a, rules.triplets, rules.separator));
            Filed(rules, atts[slot := e], power, version, done + [a], slots + [slot])
  {
    var slot := Probe(rules.hash(a.name), power, k);
    var e := NsAtt(version, rules.hash(a.name), Stored(a, rules.triplets, rules.separator));
    var after := atts[slot := e];
    assert PathCurrent(after, power, version, rules.hash(a.name), k);
    assert FiledAt(rules, after, power, version, a, slot);
    forall j | 0 <= j < |done|
      ensures FiledAt(rules, after, power, version, done[j], slots[j])
    {
      assert FiledAt(rules, atts, power, version, done[j], slots[j]);
      PathKept(atts, power, version, rules.hash(done[j].name), slots[j], slot, e);
    }
  }

  /** At any point of an element, no slot has a version below the current one. */
  lemma FiledValid(rules: Rules, atts: Slots, power: nat, version: nat, done: seq<Prefixed>, slots: seq<nat>)
    requires Filed(rules, atts, power, version, done, slots)
    ensures forall s :: 0 <= s < |atts| ==> atts[s].version >= version
  {
    forall s | 0 <= s < |atts|
      ensures atts[s].version >= version
    {
      if s in slots {
        var j :| 0 <= j < |slots| && slots[j] == s;
        assert FiledAt(rules, atts, power, version, done[j], slots[j]);
      }
    }
  }

  lemma PowersApart(n: nat, p: nat)
    requires p > 0 && n < Pow2(p - 1) <= 2 * n
    ensures n >= Pow2(WORD_BITS - 2) <==> p >= WORD_BITS
  {
    if p >= WORD_BITS {
      Pow2Monotone(WORD_BITS - 1, p - 1);
    } else {
      Pow2Monotone(p - 1, WORD_BITS - 2);
    }
  }

  class NamespaceTable {
    const rules: Rules
    var atts: array<NsAtt>
    var power: nat
    var version: nat

    /** Between elements no slot has a version below the table's, so none has the next element's version. */
    ghost predicate Valid()
      reads this, atts
    {
      if power == 0 then version == 0
      else
        && 3 <= power < WORD_BITS && atts.Length == Pow2(power)
        && forall s :: 0 <= s < atts.Length ==> atts[s].version >= version
    }

    constructor (rules: Rules)
      ensures Valid() && this.rules == rules
    {
      this.rules := rules;
      atts := new NsAtt[0];
      power, version := 0, 0;
    }

    /** Makes the table larger than twice the number of attributes; its slots then hold anything. */
    method Grow(n: nat, memory: bool, garbage: nat -> NsAtt) returns (grown: bool)
      requires Valid() && 2 * n >= Pow2(power)
      modifies this`atts, this`power
      ensures grown ==> 3 <= power < WORD_BITS && 2 * n < Pow2(power) == atts.Length && fresh(atts)
      ensures grown && power > 3 ==> Pow2(power) <= 4 * n
      ensures !grown ==> power == old(power) && atts == old(atts)
      ensures !grown <==> !memory || n >= Pow2(WORD_BITS - 2)
    {
      var newPower: nat := power;
      while n >= Pow2(newPower)
        invariant 2 * n >= Pow2(newPower)
        decreases n - Pow2(newPower)
      {
        newPower := newPower + 1;
      }
      newPower := newPower + 1;
      PowersApart(n, newPower);
      if newPower < 3 {
        newPower := 3;
      }
      if newPower >= WORD_BITS || !memory {
        return false;
      }
      atts, power := new NsAtt[Pow2(newPower)](garbage), newPower;
      return true;
    }

    /** Gives every slot the initial version. */
    method Reset()
      requires 3 <= power && atts.Length == Pow2(power)
      modifies atts
      ensures forall s :: 0 <= s < atts.Length ==> atts[s].version == INIT_ATTS_VERSION
    {
      var j := atts.Length;
      while j != 0
        invariant 0 <= j <= atts.Length
        invariant forall s :: j <= s < atts.Length ==> atts[s].version == INIT_ATTS_VERSION
      {
        j := j - 1;
        atts[j] := atts[j].(version := INIT_ATTS_VERSION);
      }
    }

    /** Readies the table for an element with n prefixed attributes: no slot has the new version. */
    method Prepare(n: nat, memory: bool, garbage: nat -> NsAtt) returns (ready: bool)
      requires Valid() && n > 0
      modifies this`atts, this`power, this`version, atts
      ensures Valid()
      ensures atts == old(atts) || fresh(atts)
      ensures !ready <==> 2 * n >= Pow2(old(power)) && (!memory || n >= Pow2(WORD_BITS - 2))
      ensures ready ==> power >= 3 && 2 * n < Pow2(power) && forall s :: 0 <= s < atts.Length ==>
               atts[s].version > version
    {
      var next := version;
      if 2 * n >= Pow2(power) {
        ready := Grow(n, memory, garbage);
        if !ready {
          return;
        }
        next := 0;
      }
      if next == 0 {
        Reset();
        next := INIT_ATTS_VERSION;
      }
      version := next - 1;
      ready := true;
    }

    /** Looks for an attribute that the name matches, or for the free slot where it goes. */
    method Walk(a: Prefixed, ghost done: seq<Prefixed>, ghost slots: seq<nat>)
      returns (duplicate: bool, j: nat, ghost k: nat)
      requires Filed(rules, atts[..], power, version, done, slots) && a.Bound? && |done| < Pow2(power)
      ensures duplicate <==> MatchesSome(rules, a, done)
      ensures !duplicate ==> j == Probe(rules.hash(a.name), power, k) && atts[j].version != version
      ensures !duplicate ==> PathCurrent(atts[..], power, version, rules.hash(a.name), k)
    {
      var h := rules.hash(a.name);
      j := h % Pow2(power);
      var step := 0;
      k := 0;
      while atts[j].version == version
        invariant j < atts.Length && Walked(atts[..], power, version, h, a.name, j, k)
        invariant step == 0 || step == ProbeStep(h, power)
        decreases Pow2(power) - k
      {
        if h == atts[j].hash && a.name <= atts[j].uriName {
          WalkMeets(rules, atts[..], power, version, done, slots, a, j);
          return true, j, k;
        }
        if step == 0 {
          step := ProbeStep(h, power);
        }
        WalkedOn(rules, atts[..], power, version, done, slots, h, a.name, j, k);
        j := Back(j, step, Pow2(power));
        k := k + 1;
      }
      WalkMisses(rules, atts[..], power, version, done, slots, a, k);
      return false, j, k;
    }

    /** Files a name in the free slot its walk ended at. */
    method File(a: Prefixed, j: nat, ghost k: nat, ghost done: seq<Prefixed>, ghost slots: seq<nat>)
      requires Filed(rules, atts[..], power, version, done, slots) && a.Bound?
      requires j == Probe(rules.hash(a.name), power, k) && atts[j].version != version
      requires PathCurrent(atts[..], power, version, rules.hash(a.name), k)
      modifies atts
      ensures Filed(rules, atts[..], power, version, done + [a], slots + [j])
    {
      FileStep(rules, atts[..], power, version, done, slots, a, k);
      ghost var after := atts[..][j := NsAtt(version, rules.hash(a.name), Stored(a, rules.triplets, rules.separator))];
      atts[j] := NsAtt(version, rules.hash(a.name), Stored(a, rules.triplets, rules.separator));
      assert atts[..] == after;
    }

    /** Files one attribute, or finds what is wrong with it. */
    method FileNext(attributes: seq<Prefixed>, i: nat, names: seq<string>, ghost slots: seq<nat>)
      returns (failure: Option<Verdict>, ghost more: seq<nat>)
      requires i < |attributes| < Pow2(power) && Filed(rules, atts[..], power, version, attributes[..i], slots)
      modifies atts
      ensures Filed(rules, atts[..], power, version, attributes[..if failure.None? then i + 1 else i], more)
      ensures failure.Some? ==> failure.value != NoMemory && Judge(rules, attributes, i, names) == failure.value
      ensures failure.None? ==>
                && attributes[i].Bound?
                && Judge(rules, attributes, i, names) ==
                   Judge(rules, attributes, i + 1, names + [Stored(attributes[i], rules.triplets, rules.separator)])
    {
      var a := attributes[i];
      more := slots;
      if a.Unbound? {
        return Some(UnboundPrefix(i)), more;
      }
      var duplicate, j, k := Walk(a, attributes[..i], slots);
      if duplicate {
        return Some(Duplicate(i)), more;
      }
      assert attributes[..i] + [a] == attributes[..i + 1];
      File(a, j, k, attributes[..i], slots);
      return None, slots + [j];
    }

    /**
     Expands the prefixed names of an element. Whatever earlier elements left in the table, the outcome
     depends on this element's attributes alone.
     */
    method Expand(attributes: seq<Prefixed>, memory: bool, garbage: nat -> NsAtt) returns (verdict: Verdict)
      requires Valid()
      modifies this`atts, this`power, this`version, atts
      ensures Valid()
      ensures verdict == NoMemory <==>
              attributes != [] && 2 * |attributes| >= Pow2(old(power))
                  && (!memory || |attributes| >= Pow2(WORD_BITS - 2))
      ensures verdict != NoMemory ==> verdict == Judge(rules, attributes, 0, [])
    {
      if attributes == [] {
        return Accepted([]);
      }
      var ready := Prepare(|attributes|, memory, garbage);
      if !ready {
        return NoMemory;
      }
      var i, names := 0, [];
      ghost var slots: seq<nat> := [];
      while i < |attributes|
        invariant i <= |attributes| < Pow2(power) && Filed(rules, atts[..], power, version, attributes[..i], slots)
        invariant power < WORD_BITS
        invariant Judge(rules, attributes, 0, []) == Judge(rules, attributes, i, names)
        invariant atts == old(atts) || fresh(atts)
      {
        var failure;
        failure, slots := FileNext(attributes, i, names, slots);
        if failure.Some? {
          FiledValid(rules, atts[..], power, version, attributes[..i], slots);
          return failure.value;
        }
        names := names + [Stored(attributes[i], rules.triplets, rules.separator)];
        i := i + 1;
      }
      FiledValid(rules, atts[..], power, version, attributes[..i], slots);
      return Accepted(names);
    }
  }
}
