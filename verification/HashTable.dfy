/** The parser's name tables: open addressing with double hashing, grown when half full. */
module HashTables {
  import opened Probing

  type Key = string

  const INIT_POWER := 6
  const MAX_POWER := 64  // bits in an unsigned long
  const MAX_SIZE := 0x2000_0000_0000_0000  // slots of eight bytes that fit an address space of 2^64 bytes

  /** An entry of a table; the fields after the name are not part of the table's business. */
  class Named {
    const name: Key

    constructor (name: Key)
      ensures this.name == name
    {
      this.name := name;
    }
  }

  type Slots = seq<Named?>

  type Hash = Key -> nat

  ghost predicate Taken(v: Slots, i: nat)
  {
    i < |v| && v[i] != null
  }

  /** The first k probes of a hash meet taken slots. */
  ghost predicate PathTaken(v: Slots, power: nat, h: nat, k: nat)
    requires power >= 3 && |v| == Pow2(power)
  {
    forall j :: 0 <= j < k ==> v[Probe(h, power, j)] != null
  }

  /** Slot i is the k-th probe of its entry's hash, and all earlier probes meet taken slots. */
  ghost predicate OnPath(v: Slots, power: nat, hash: Hash, i: nat, k: nat)
    requires power >= 3 && |v| == Pow2(power)
  {
    i < |v| && v[i] != null && Probe(hash(v[i].name), power, k) == i && PathTaken(v, power, hash(v[i].name), k)
  }

  ghost predicate Findable(v: Slots, power: nat, hash: Hash)
    requires power >= 3 && |v| == Pow2(power)
  {
    forall i: nat :: Taken(v, i) ==> exists k: nat :: OnPath(v, power, hash, i, k)
  }

  ghost function Count(v: Slots): nat
  {
    if v == [] then 0 else Count(v[..|v| - 1]) + if v[|v| - 1] != null then 1 else 0
  }

  lemma {:induction false} CountPut(v: Slots, i: nat, e: Named)
    requires i < |v| && v[i] == null
    ensures Count(v[i := e]) == Count(v) + 1
  {
    var n := |v| - 1;
    if i < n {
      assert v[i := e][..n] == v[..n][i := e];
      CountPut(v[..n], i, e);
    } else {
      assert v[i := e][..n] == v[..n];
    }
  }

  lemma {:induction false} CountBound(v: Slots)
    ensures Count(v) <= |v|
    ensures Count(v) == |v| <==> forall i :: 0 <= i < |v| ==> v[i] != null
  {
    if v != [] {
      CountBound(v[..|v| - 1]);
    }
  }

  lemma {:induction false} CountEmpty(v: Slots)
    requires forall i :: 0 <= i < |v| ==> v[i] == null
    ensures Count(v) == 0
  {
    if v != [] {
      CountEmpty(v[..|v| - 1]);
    }
  }

  /** As long as a slot is free, probing ends before a full round. */
  lemma ProbingEnds(v: Slots, power: nat, h: nat, k: nat)
    requires power >= 3 && |v| == Pow2(power) && Count(v) < |v|
    requires PathTaken(v, power, h, k) && k <= Pow2(power)
    ensures k < Pow2(power)
  {
    CountBound(v);
    var i :| 0 <= i < |v| && v[i] == null;
    EverySlotProbed(h, power, i);
    var j :| 0 <= j < Pow2(power) && Probe(h, power, j) == i;
  }

  /** The map holds exactly the entries of the table, under their names. */
  ghost predicate Holds(v: Slots, contents: map<Key, Named>)
  {
    && (forall i: nat :: Taken(v, i) ==> v[i].name in contents && contents[v[i].name] == v[i])
    && (forall key :: key in contents ==>
       contents[key].name == key && exists i: nat :: Taken(v, i) && v[i] == contents[key])
  }

  ghost predicate NamesDiffer(v: Slots)
  {
    forall i: nat, j: nat :: Taken(v, i) && Taken(v, j) && v[i].name == v[j].name ==> i == j
  }

  /** A table of 2^power slots in which every entry can be found. */
  ghost predicate Sound(v: Slots, power: nat, hash: Hash, contents: map<Key, Named>)
  {
    && power >= 3 && |v| == Pow2(power)
    && Findable(v, power, hash) && NamesDiffer(v) && Holds(v, contents)
  }

  lemma OnPathKept(v: Slots, power: nat, hash: Hash, i: nat, k: nat, j: nat, e: Named)
    requires power >= 3 && |v| == Pow2(power) && OnPath(v, power, hash, i, k)
    requires j < |v| && v[j] == null
    ensures OnPath(v[j := e], power, hash, i, k)
  {
  }

  /** Putting a new name in the free slot its probing ends at keeps the table sound. */
  lemma PutSound(v: Slots, power: nat, hash: Hash, contents: map<Key, Named>, k: nat, e: Named)
    requires Sound(v, power, hash, contents) && e.name !in contents
    requires PathTaken(v, power, hash(e.name), k) && v[Probe(hash(e.name), power, k)] == null
    ensures Sound(v[Probe(hash(e.name), power, k) := e], power, hash, contents[e.name := e])
  {
    var i := Probe(hash(e.name), power, k);
    assert OnPath(v[i := e], power, hash, i, k);
    PutFindable(v, power, hash, k, i, e);
    PutHolds(v, contents, i, e);
  }

  lemma PutFindable(v: Slots, power: nat, hash: Hash, k: nat, i: nat, e: Named)
    requires power >= 3 && |v| == Pow2(power) && Findable(v, power, hash) && i < |v| && v[i] == null
    requires OnPath(v[i := e], power, hash, i, k)
    ensures Findable(v[i := e], power, hash)
  {
    var w := v[i := e];
    forall j: nat | Taken(w, j) && j != i
      ensures exists m: nat :: OnPath(w, power, hash, j, m)
    {
      assert Taken(v, j);
      var m: nat :| OnPath(v, power, hash, j, m);
      OnPathKept(v, power, hash, j, m, i, e);
    }
  }

  lemma PutHolds(v: Slots, contents: map<Key, Named>, i: nat, e: Named)
    requires i < |v| && v[i] == null && Holds(v, contents) && NamesDiffer(v) && e.name !in contents
    ensures Holds(v[i := e], contents[e.name := e]) && NamesDiffer(v[i := e])
  {
    var w := v[i := e];
    assert forall j: nat :: j != i ==> (Taken(w, j) <==> Taken(v, j));
    forall key | key in contents
      ensures exists j: nat :: Taken(w, j) && w[j] == contents[key]
    {
      var j: nat :| Taken(v, j) && v[j] == contents[key];
      assert Taken(w, j) && w[j] == contents[key];
    }
    assert Taken(w, i);
  }

  /** When probing meets a free slot before the name, the name is not in the table. */
  lemma NotFound(v: Slots, power: nat, hash: Hash, contents: map<Key, Named>, name: Key, k: nat)
    requires Sound(v, power, hash, contents)
    requires PathTaken(v, power, hash(name), k) && v[Probe(hash(name), power, k)] == null
    requires forall j :: 0 <= j < k ==> v[Probe(hash(name), power, j)].name != name
    ensures name !in contents
  {
  }

  lemma EmptySound(v: Slots, power: nat, hash: Hash)
    requires power >= 3 && |v| == Pow2(power) && forall i :: 0 <= i < |v| ==> v[i] == null
    ensures Sound(v, power, hash, map[]) && Count(v) == 0
  {
    CountEmpty(v);
  }

  /** The map without the entries from slot n on. */
  ghost function Upto(v: Slots, contents: map<Key, Named>, n: nat): map<Key, Named>
    requires n <= |v|
  {
    map key | key in contents && contents[key] in v[..n] :: contents[key]
  }

  lemma UptoStep(v: Slots, power: nat, hash: Hash, contents: map<Key, Named>, n: nat)
    requires Sound(v, power, hash, contents) && n < |v|
    ensures v[n] == null ==> Upto(v, contents, n + 1) == Upto(v, contents, n)
    ensures v[n] != null ==> v[n].name !in Upto(v, contents, n)
                             && Upto(v, contents, n + 1) == Upto(v, contents, n)[v[n].name := v[n]]
  {
    assert v[..n + 1] == v[..n] + [v[n]];
    if v[n] != null {
      assert Taken(v, n);
    }
  }

  lemma UptoAll(v: Slots, power: nat, hash: Hash, contents: map<Key, Named>)
    requires Sound(v, power, hash, contents)
    ensures Upto(v, contents, |v|) == contents && Upto(v, contents, 0) == map[]
  {
    assert v[..|v|] == v;
    forall key | key in contents
      ensures contents[key] in v
    {
      var i: nat :| Taken(v, i) && v[i] == contents[key];
    }
  }

  /** The first free slot among the probes of a hash, starting with the k-th. */
  ghost function FreeProbe(v: Slots, h: nat, power: nat, k: nat): (i: nat)
    requires power >= 3 && |v| == Pow2(power)
    ensures i < |v|
    decreases Pow2(power) - k
  {
    if k < Pow2(power) && v[Probe(h, power, k)] != null then FreeProbe(v, h, power, k + 1) else Probe(h, power, k)
  }

  /** It is free as long as any slot is. */
  lemma {:induction false} FreeProbeFree(v: Slots, h: nat, power: nat, k: nat) returns (n: nat)
    requires power >= 3 && |v| == Pow2(power) && Count(v) < |v| && PathTaken(v, power, h, k) && k < Pow2(power)
    ensures FreeProbe(v, h, power, k) == Probe(h, power, n) && PathTaken(v, power, h, n)
    ensures v[Probe(h, power, n)] == null
    decreases Pow2(power) - k
  {
    if v[Probe(h, power, k)] != null {
      ProbingEnds(v, power, h, k + 1);
      n := FreeProbeFree(v, h, power, k + 1);
    } else {
      n := k;
    }
  }

  /** Walks to the first free slot for a hash. */
  method FreeSlot(v: array<Named?>, h: nat, power: nat) returns (i: nat)
    requires power >= 3 && v.Length == Pow2(power) && Count(v[..]) < v.Length
    ensures i == FreeProbe(v[..], h, power, 0)
  {
    i := h % Pow2(power);
    var step := 0;
    ghost var k := 0;
    while v[i] != null
      invariant k < Pow2(power) && i == Probe(h, power, k) && PathTaken(v[..], power, h, k)
      invariant FreeProbe(v[..], h, power, 0) == FreeProbe(v[..], h, power, k)
      invariant step == 0 || step == ProbeStep(h, power)
      decreases Pow2(power) - k
    {
      if step == 0 {
        step := ProbeStep(h, power);
      }
      ProbingEnds(v[..], power, h, k + 1);
      i := Back(i, step, Pow2(power));
      k := k + 1;
    }
  }

  /** An entry put in the first free slot of its name. */
  ghost function Placed(w: Slots, power: nat, hash: Hash, e: Named?): Slots
    requires power >= 3 && |w| == Pow2(power)
  {
    if e == null then w else w[FreeProbe(w, hash(e.name), power, 0) := e]
  }

  /** The new table after the first n slots of the old one have been moved. */
  ghost function Moved(v: Slots, empty: Slots, power: nat, hash: Hash, n: nat): (w: Slots)
    requires power >= 3 && |empty| == Pow2(power) && n <= |v|
    ensures |w| == |empty|
  {
    if n == 0 then empty else Placed(Moved(v, empty, power, hash, n - 1), power, hash, v[n - 1])
  }

  lemma PlacedSound(v: Slots, power: nat, hash: Hash, contents: map<Key, Named>, e: Named)
    requires Sound(v, power, hash, contents) && e.name !in contents && Count(v) < |v|
    ensures Sound(Placed(v, power, hash, e), power, hash, contents[e.name := e])
    ensures Count(Placed(v, power, hash, e)) == Count(v) + 1
  {
    var k := FreeProbeFree(v, hash(e.name), power, 0);
    PutSound(v, power, hash, contents, k, e);
    CountPut(v, Probe(hash(e.name), power, k), e);
  }

  /** The new table holds the first n slots of the old one. */
  ghost predicate Holding(v: Slots, contents: map<Key, Named>, w: Slots, power: nat, hash: Hash, n: nat)
    requires n <= |v|
  {
    Sound(w, power, hash, Upto(v, contents, n)) && Count(w) == Count(v[..n])
  }

  /** Every step of the move keeps the new table sound and its entries findable. */
  lemma {:induction false} MovedSound(v: Slots, power0: nat, hash: Hash, contents: map<Key, Named>, empty: Slots,
                                      power: nat, n: nat)
    requires Sound(v, power0, hash, contents) && n <= |v| < |empty|
    requires Sound(empty, power, hash, map[]) && Count(empty) == 0
    ensures Holding(v, contents, Moved(v, empty, power, hash, n), power, hash, n)
  {
    if n == 0 {
      UptoAll(v, power0, hash, contents);
    } else {
      MovedSound(v, power0, hash, contents, empty, power, n - 1);
      MovedNext(v, power0, hash, contents, Moved(v, empty, power, hash, n - 1), power, n - 1);
    }
  }

  lemma MovedNext(v: Slots, power0: nat, hash: Hash, contents: map<Key, Named>, w: Slots, power: nat, n: nat)
    requires Sound(v, power0, hash, contents) && n < |v| < |w|
    requires Holding(v, contents, w, power, hash, n)
    ensures Holding(v, contents, Placed(w, power, hash, v[n]), power, hash, n + 1)
  {
    UptoStep(v, power0, hash, contents, n);
    CountNext(v, n);
    if v[n] != null {
      PlacedSound(w, power, hash, Upto(v, contents, n), v[n]);
    }
  }

  lemma CountNext(v: Slots, n: nat)
    requires n < |v|
    ensures Count(v[..n]) <= n && Count(v[..n + 1]) == Count(v[..n]) + if v[n] == null then 0 else 1
  {
    assert v[..n + 1][..n] == v[..n];
    CountBound(v[..n]);
  }

  lemma MovedRoom(v: Slots, power0: nat, hash: Hash, contents: map<Key, Named>, empty: Slots, power: nat, n: nat)
    requires Sound(v, power0, hash, contents) && n <= |v| < |empty|
    requires Sound(empty, power, hash, map[]) && Count(empty) == 0
    ensures Count(Moved(v, empty, power, hash, n)) < |empty|
  {
    MovedSound(v, power0, hash, contents, empty, power, n);
    CountBound(v[..n]);
  }

  ghost function Empty(power: nat): (v: Slots)
    ensures |v| == Pow2(power) && forall i :: 0 <= i < |v| ==> v[i] == null
  {
    seq(Pow2(power), _ => null)
  }

  /** The new table after n slots, and it has room for more. */
  ghost predicate Moving(v: Slots, w: Slots, power: nat, hash: Hash, n: nat)
    requires power >= 3 && n <= |v|
  {
    |w| == Pow2(power) && w == Moved(v, Empty(power), power, hash, n) && Count(w) < |w|
  }

  lemma MovingOn(v: Slots, w: Slots, power: nat, hash: Hash, contents: map<Key, Named>, n: nat)
    requires Sound(v, power, hash, contents) && n <= |v|
    requires w == Moved(v, Empty(power + 1), power + 1, hash, n)
    ensures Moving(v, w, power + 1, hash, n)
  {
    EmptySound(Empty(power + 1), power + 1, hash);
    MovedRoom(v, power, hash, contents, Empty(power + 1), power + 1, n);
  }

  /** Moves one entry into the new table. */
  method MoveEntry(w: array<Named?>, power: nat, hash: Hash, e: Named)
    requires power >= 3 && w.Length == Pow2(power) && Count(w[..]) < w.Length
    modifies w
    ensures w[..] == Placed(old(w[..]), power, hash, e)
  {
    var j := FreeSlot(w, hash(e.name), power);
    w[j] := e;
  }

  method MoveSlot(v: array<Named?>, i: nat, w: array<Named?>, power: nat, hash: Hash, ghost contents: map<Key, Named>)
    requires v != w && i < v.Length && Sound(v[..], power, hash, contents) && Moving(v[..], w[..], power + 1, hash, i)
    modifies w
    ensures Moving(v[..], w[..], power + 1, hash, i + 1)
  {
    if v[i] != null {
      MoveEntry(w, power + 1, hash, v[i]);
    }
    MovingOn(v[..], w[..], power, hash, contents, i + 1);
  }

  method NewSlots(power: nat) returns (w: array<Named?>)
    ensures fresh(w) && w[..] == Empty(power)
  {
    w := new Named?[Pow2(power)](_ => null);
  }

  /** Moves every entry into a new table of twice the size. */
  method Rehash(v: array<Named?>, power: nat, hash: Hash, ghost contents: map<Key, Named>) returns (w: array<Named?>)
    requires Sound(v[..], power, hash, contents)
    ensures fresh(w) && w[..] == Moved(v[..], Empty(power + 1), power + 1, hash, v.Length)
  {
    w := NewSlots(power + 1);
    MovingOn(v[..], w[..], power, hash, contents, 0);
    for i := 0 to v.Length
      invariant Moving(v[..], w[..], power + 1, hash, i)
    {
      MoveSlot(v, i, w, power, hash, contents);
    }
  }

  /** The moved table holds the same map. */
  lemma RehashSound(v: Slots, power: nat, hash: Hash, contents: map<Key, Named>, w: Slots)
    requires Sound(v, power, hash, contents) && w == Moved(v, Empty(power + 1), power + 1, hash, |v|)
    ensures Sound(w, power + 1, hash, contents) && Count(w) == Count(v) && |w| == 2 * |v|
  {
    EmptySound(Empty(power + 1), power + 1, hash);
    MovedSound(v, power, hash, contents, Empty(power + 1), power + 1, |v|);
    UptoAll(v, power, hash, contents);
    assert v[..|v|] == v;
  }

  /** The first k probes of a name meet entries of other names. */
  ghost predicate Passed(v: Slots, power: nat, h: nat, name: Key, k: nat)
    requires power >= 3 && |v| == Pow2(power)
  {
    PathTaken(v, power, h, k) && forall j :: 0 <= j < k ==> v[Probe(h, power, j)].name != name
  }

  /** A slot where the probing of a name may stop. */
  ghost predicate Stops(v: Slots, power: nat, hash: Hash, name: Key, i: nat)
    requires power >= 3 && |v| == Pow2(power)
  {
    && i < |v|
    && (exists k: nat :: Passed(v, power, hash(name), name, k) && i == Probe(hash(name), power, k))
    && (v[i] == null ==> i == FreeProbe(v, hash(name), power, 0))
    && (v[i] != null ==> v[i].name == name)
  }

  lemma StopsRight(v: Slots, power: nat, hash: Hash, contents: map<Key, Named>, name: Key, i: nat)
    requires Sound(v, power, hash, contents) && Stops(v, power, hash, name, i)
    ensures v[i] == null <==> name !in contents
    ensures name in contents ==> v[i] == contents[name]
  {
    if v[i] == null {
      var k: nat :| Passed(v, power, hash(name), name, k) && i == Probe(hash(name), power, k);
      NotFound(v, power, hash, contents, name, k);
    } else {
      assert Taken(v, i);
    }
  }

  /** The walk for a name has passed k slots and stands at the i-th. */
  ghost predicate Walked(v: Slots, power: nat, h: nat, name: Key, i: nat, k: nat)
    requires power >= 3 && |v| == Pow2(power)
  {
    && k < Pow2(power) && i == Probe(h, power, k) && Passed(v, power, h, name, k)
    && FreeProbe(v, h, power, 0) == FreeProbe(v, h, power, k)
  }

  lemma WalkedOn(v: Slots, power: nat, h: nat, name: Key, i: nat, k: nat)
    requires power >= 3 && |v| == Pow2(power) && Count(v) < |v|
    requires Walked(v, power, h, name, i, k) && v[i] != null && v[i].name != name
    ensures Walked(v, power, h, name, Back(i, ProbeStep(h, power), Pow2(power)), k + 1)
  {
    ProbingEnds(v, power, h, k + 1);
  }

  lemma WalkedStops(v: Slots, power: nat, hash: Hash, name: Key, i: nat, k: nat)
    requires power >= 3 && |v| == Pow2(power)
    requires Walked(v, power, hash(name), name, i, k) && (v[i] == null || v[i].name == name)
    ensures Stops(v, power, hash, name, i)
  {
  }

  /** Walks the probes of a name to its entry, or to the free slot where it would go. */
  method Find(v: array<Named?>, power: nat, hash: Hash, name: Key) returns (i: nat)
    requires power >= 3 && v.Length == Pow2(power) && Count(v[..]) < v.Length
    ensures Stops(v[..], power, hash, name, i)
  {
    var h := hash(name);
    i := h % Pow2(power);
    var step := 0;
    ghost var k := 0;
    while v[i] != null && v[i].name != name
      invariant i < v.Length && Walked(v[..], power, h, name, i, k)
      invariant step == 0 || step == ProbeStep(h, power)
      decreases Pow2(power) - k
    {
      if step == 0 {
        step := ProbeStep(h, power);
      }
      WalkedOn(v[..], power, h, name, i, k);
      i := Back(i, step, Pow2(power));
      k := k + 1;
    }
    WalkedStops(v[..], power, hash, name, i, k);
  }

  lemma HalfWord()
    ensures Pow2(32) == 0x1_0000_0000
  {
    assert Pow2(8) == 256;
    Pow2Sum(8, 8);
    assert Pow2(16) == 0x1_0000;
    Pow2Sum(16, 16);
  }

  /** A size that fits the address space has a power that can be shifted by. */
  lemma PowerInWord(power: nat)
    ensures Pow2(power) < MAX_SIZE ==> power < MAX_POWER
  {
    if power >= MAX_POWER {
      Pow2Monotone(MAX_POWER, power);
      Pow2Sum(32, 32);
      HalfWord();
    }
  }

  /** A sound table that is at most half full. */
  ghost predicate HalfFull(v: Slots, power: nat, hash: Hash, contents: map<Key, Named>, used: nat)
  {
    INIT_POWER <= power < MAX_POWER && Sound(v, power, hash, contents) && used == Count(v) && 2 * used <= |v|
  }

  lemma Grown(v: Slots, power: nat, hash: Hash, contents: map<Key, Named>, used: nat, w: Slots)
    requires HalfFull(v, power, hash, contents, used) && w == Moved(v, Empty(power + 1), power + 1, hash, |v|)
    requires power + 1 < MAX_POWER
    ensures HalfFull(w, power + 1, hash, contents, used) && |w| == 2 * |v|
  {
    RehashSound(v, power, hash, contents, w);
  }

  method Larger(v: array<Named?>, power: nat, hash: Hash, ghost contents: map<Key, Named>, ghost used: nat)
    returns (w: array<Named?>)
    requires HalfFull(v[..], power, hash, contents, used) && power + 1 < MAX_POWER
    ensures fresh(w) && w.Length == 2 * v.Length && HalfFull(w[..], power + 1, hash, contents, used)
  {
    w := Rehash(v, power, hash, contents);
    Grown(v[..], power, hash, contents, used, w[..]);
  }

  lemma Entered(v: Slots, power: nat, hash: Hash, contents: map<Key, Named>, used: nat, e: Named)
    requires HalfFull(v, power, hash, contents, used) && 2 * used < |v| && e.name !in contents && |v| % 2 == 0
    ensures HalfFull(Placed(v, power, hash, e), power, hash, contents[e.name := e], used + 1)
  {
    PlacedSound(v, power, hash, contents, e);
  }

  lemma Started(v: Slots, hash: Hash)
    requires |v| == Pow2(INIT_POWER) && forall i :: 0 <= i < |v| ==> v[i] == null
    ensures HalfFull(v, INIT_POWER, hash, map[], 0)
  {
    EmptySound(v, INIT_POWER, hash);
  }

  class HashTable {
    const hash: Hash
    var v: array?<Named?>
    var power: nat
    var size: nat
    var used: nat
    ghost var contents: map<Key, Named>

    /** An unused table has no slots; otherwise it is sound and at most half full. */
    ghost predicate Valid()
      reads this, v
    {
      if size == 0 then v == null && used == 0 && contents == map[]
      else
        v != null && v.Length == size && HalfFull(v[..], power, hash, contents, used)
    }

    constructor (hash: Hash)
      ensures Valid() && contents == map[] && this.hash == hash
    {
      this.hash := hash;
      v, power, size, used := null, 0, 0, 0;
      contents := map[];
    }

    /** Moves the entries into a table of twice the size. */
    method Double()
      requires v != null && v.Length == size && power + 1 < MAX_POWER && HalfFull(v[..], power, hash, contents, used)
      modifies this`v, this`power, this`size
      ensures fresh(v) && v.Length == size == 2 * old(size) && power == old(power) + 1
      ensures HalfFull(v[..], power, hash, contents, used)
    {
      var newV := Larger(v, power, hash, contents, used);
      v, power, size := newV, power + 1, newV.Length;
    }

    /** Doubles the table; when the size would overflow or memory is short, nothing happens. */
    method Grow(memory: bool) returns (grown: bool)
      requires Valid() && size > 0
      modifies this`v, this`power, this`size
      ensures Valid()
      ensures grown ==> fresh(v) && size == 2 * old(size) && power == old(power) + 1
      ensures grown <==> memory && 2 * old(size) < MAX_SIZE
      ensures !grown ==> v == old(v) && size == old(size) && power == old(power)
    {
      PowerInWord(power + 1);
      if power + 1 >= MAX_POWER || Pow2(power + 1) >= MAX_SIZE || !memory {
        return false;
      }
      Double();
      return true;
    }

    /** Makes the first table, of 64 free slots. */
    method Start(memory: bool)
      requires Valid() && size == 0
      modifies this`v, this`power, this`size
      ensures Valid()
      ensures if memory then size == 64 && power == INIT_POWER && fresh(v) else size == 0 && v == null
    {
      power := INIT_POWER;
      if memory {
        v := new Named?[Pow2(INIT_POWER)](_ => null);
        size := v.Length;
        Started(v[..], hash);
        assert Pow2(6) == 64;
      }
    }

    /** Puts a new entry in the free slot of its name. */
    method Enter(name: Key, i: nat) returns (r: Named)
      requires Valid() && size > 2 * used && name !in contents
      requires i == FreeProbe(v[..], hash(name), power, 0)
      modifies this`used, this`contents, v
      ensures Valid() && fresh(r) && r.name == name && contents == old(contents)[name := r]
    {
      r := new Named(name);
      Entered(v[..], power, hash, contents, used, r);
      ghost var placed := Placed(v[..], power, hash, r);
      v[i] := r;
      assert v[..] == placed;
      used := used + 1;
      contents := contents[name := r];
    }

    /**
     The entry of a name; when there is none and one is asked for, a new one, for which the table may
     grow. A null result leaves the map of the table as it was.
     */
    method Lookup(name: Key, create: bool, tableMemory: bool, entryMemory: bool) returns (r: Named?)
      requires Valid()
      modifies this, v
      ensures Valid()
      ensures name in old(contents) ==> r == old(contents)[name] && contents == old(contents)
      ensures name !in old(contents) && r != null ==>
                create && fresh(r) && r.name == name && contents == old(contents)[name := r]
      ensures r == null ==> contents == old(contents)
      ensures name !in old(contents) && create && entryMemory && tableMemory && 2 * old(size) < MAX_SIZE ==> r != null
      ensures name !in old(contents) && create && entryMemory && 0 < old(size) && 2 * old(used) < old(size) ==>
               r != null
    {
      if size == 0 && !create {
        return null;
      }
      if size == 0 {
        Start(tableMemory);
        if size == 0 {
          return null;
        }
      }
      var i := Find(v, power, hash, name);
      StopsRight(v[..], power, hash, contents, name, i);
      if v[i] != null {
        return v[i];
      }
      if !create {
        return null;
      }
      if 2 * used >= size {
        var grown := Grow(tableMemory);
        if !grown {
          return null;
        }
        i := FreeSlot(v, hash(name), power);
      }
      if !entryMemory {
        return null;
      }
      r := Enter(name, i);
    }

    /** Drops every entry and keeps the slots. */
    method Clear()
      requires Valid()
      modifies this`used, this`contents, v
      ensures Valid() && contents == map[] && used == 0
    {
      if size > 0 {
        for i := 0 to size
          invariant forall j :: 0 <= j < i ==> v[j] == null
        {
          v[i] := null;
        }
        EmptySound(v[..], power, hash);
      }
      used := 0;
      contents := map[];
    }
  }
}
