/** Double hashing over a table whose size is a power of two: an odd step visits every slot. */
module Probing {
  import opened Arithmetic

  function Pow2(p: nat): (r: nat)
    ensures r > 0
  {
    if p == 0 then 1 else 2 * Pow2(p - 1)
  }

  lemma {:induction false} Pow2Monotone(p: nat, q: nat)
    requires p <= q
    ensures Pow2(p) <= Pow2(q)
  {
    if p < q {
      Pow2Monotone(p, q - 1);
    }
  }

  lemma {:induction false} Pow2Sum(p: nat, q: nat)
    ensures Pow2(p + q) == Pow2(p) * Pow2(q)
  {
    if p > 0 {
      Pow2Sum(p - 1, q);
      assert 2 * (Pow2(p - 1) * Pow2(q)) == Pow2(p) * Pow2(q);
    }
  }

  /**
   The step for a hash: the hash bits above the index, shifted up by one, cut to a quarter of the
   table, made odd and stored in a byte.
   */
  function ProbeStep(h: nat, power: nat): (step: nat)
    requires power >= 3
    ensures step % 2 == 1 && 0 < step < Pow2(power)
  {
    var second := 2 * (h / Pow2(power)) % Pow2(power - 2);
    StepIsOdd(h / Pow2(power), power);
    (second + 1) % 256
  }

  lemma StepIsOdd(high: nat, power: nat)
    requires power >= 3
    ensures var second := 2 * high % Pow2(power - 2);
            second % 2 == 0 && (second + 1) % 256 % 2 == 1 && (second + 1) % 256 < Pow2(power)
  {
    var half := Pow2(power - 3);
    assert Pow2(power - 2) == 2 * half && Pow2(power - 1) == 4 * half;
    ModDouble(high, half);
    DoubleSmall(high % half, half, Pow2(power));
  }

  lemma DoubleSmall(x: nat, half: nat, size: nat)
    requires x < half && 8 * half == size
    ensures 2 * x % 2 == 0 && (2 * x + 1) % 256 % 2 == 1 && (2 * x + 1) % 256 < size
  {
  }

  lemma ModDouble(x: nat, half: nat)
    requires half > 0
    ensures 2 * x % (2 * half) == 2 * (x % half)
  {
    var q, r := x / half, x % half;
    assert x == q * half + r;
    assert 2 * x == q * (2 * half) + 2 * r;
    ModUnique(2 * x, 2 * half, q, 2 * r);
  }

  lemma ModUnique(x: int, m: int, q: int, r: int)
    requires 0 <= r < m && x == q * m + r
    ensures x % m == r && x / m == q
  {
    var d := x / m - q;
    assert x == (x / m) * m + x % m;
    assert d * m == (x / m) * m - q * m;
    SmallMultiple(d, m);
  }

  /** One step back, wrapping at the start of the table. */
  function Back(i: nat, step: nat, size: nat): (j: nat)
    requires i < size && 0 < step < size
    ensures j < size
  {
    if i < step then i + (size - step) else i - step
  }

  /** The slot of the k-th probe. */
  function Probe(h: nat, power: nat, k: nat): (i: nat)
    requires power >= 3
    ensures i < Pow2(power)
  {
    if k == 0 then h % Pow2(power) else Back(Probe(h, power, k - 1), ProbeStep(h, power), Pow2(power))
  }

  /** The k-th probe lies k steps before the first, up to multiples of the size. */
  lemma {:induction false} ProbeTurns(h: nat, power: nat, k: nat) returns (turns: int)
    requires power >= 3
    ensures Probe(h, power, k) == h % Pow2(power) - k * ProbeStep(h, power) + turns * Pow2(power)
  {
    if k == 0 {
      turns := 0;
    } else {
      var before := ProbeTurns(h, power, k - 1);
      turns := BackTurns(Probe(h, power, k - 1), ProbeStep(h, power), Pow2(power), h % Pow2(power), k - 1, before);
    }
  }

  lemma BackTurns(i: nat, step: nat, size: nat, first: nat, k: nat, before: int) returns (turns: int)
    requires i < size && 0 < step < size && i == first - k * step + before * size
    ensures Back(i, step, size) == first - (k + 1) * step + turns * size
  {
    turns := if i < step then before + 1 else before;
    assert (k + 1) * step == k * step + step && (before + 1) * size == before * size + size;
  }

  /** An odd factor can be cancelled from a multiple of a power of two. */
  lemma {:induction false} OddCancels(power: nat, step: nat, k: nat, m: int)
    requires step % 2 == 1 && k * step == m * Pow2(power)
    ensures k % Pow2(power) == 0
  {
    if power > 0 {
      var half := Pow2(power - 1);
      assert m * Pow2(power) == 2 * (m * half);
      EvenFactor(k, step, m * half);
      var j := k / 2;
      assert k == 2 * j;
      assert 2 * (j * step) == k * step;
      OddCancels(power - 1, step, j, m);
      ModDouble(j, half);
    }
  }

  lemma EvenFactor(k: nat, step: nat, n: int)
    requires step % 2 == 1 && k * step == 2 * n
    ensures k % 2 == 0
  {
    var s := step / 2;
    assert step == 2 * s + 1;
    assert k * step == 2 * (k * s) + k;
  }

  /** No slot is probed twice in a round of the table. */
  lemma ProbesDiffer(h: nat, power: nat, j: nat, k: nat)
    requires power >= 3 && j < k < Pow2(power)
    ensures Probe(h, power, j) != Probe(h, power, k)
  {
    if Probe(h, power, j) == Probe(h, power, k) {
      var a := ProbeTurns(h, power, j);
      var b := ProbeTurns(h, power, k);
      var step, size := ProbeStep(h, power), Pow2(power);
      DifferenceOfTurns(step, size, j, k, a, b);
      OddCancels(power, step, k - j, b - a);
      SmallModulus(k - j, size);
    }
  }

  lemma DifferenceOfTurns(step: nat, size: nat, j: nat, k: nat, a: int, b: int)
    requires j < k && -(j * step) + a * size == -(k * step) + b * size
    ensures (k - j) * step == (b - a) * size
  {
  }

  lemma SmallModulus(x: nat, m: nat)
    requires 0 < x < m
    ensures x % m != 0
  {
  }

  ghost function Probed(h: nat, power: nat, n: nat): set<nat>
    requires power >= 3
  {
    set k | 0 <= k < n :: Probe(h, power, k)
  }

  ghost function Below(n: nat): (s: set<nat>)
    ensures forall i: nat :: i in s <==> i < n
  {
    if n == 0 then {} else Below(n - 1) + {n - 1}
  }

  lemma {:induction false} BelowSize(n: nat)
    ensures |Below(n)| == n
  {
    if n > 0 {
      BelowSize(n - 1);
      assert Below(n) == Below(n - 1) + {n - 1};
    }
  }

  lemma ProbedNext(h: nat, power: nat, n: nat)
    requires power >= 3 && n < Pow2(power)
    ensures Probed(h, power, n + 1) == Probed(h, power, n) + {Probe(h, power, n)}
    ensures Probe(h, power, n) !in Probed(h, power, n)
  {
    forall k | 0 <= k < n
      ensures Probe(h, power, k) != Probe(h, power, n)
    {
      ProbesDiffer(h, power, k, n);
    }
  }

  lemma {:induction false} ProbedSize(h: nat, power: nat, n: nat)
    requires power >= 3 && n <= Pow2(power)
    ensures |Probed(h, power, n)| == n
  {
    if n > 0 {
      ProbedSize(h, power, n - 1);
      ProbedNext(h, power, n - 1);
    }
  }

  lemma {:induction false} SubsetOfSameSize(a: set<nat>, b: set<nat>)
    requires a <= b && |a| == |b|
    ensures a == b
  {
    if a != {} {
      var x :| x in a;
      SubsetOfSameSize(a - {x}, b - {x});
    }
  }

  /** A round of probes visits every slot of the table. */
  lemma EverySlotProbed(h: nat, power: nat, i: nat)
    requires power >= 3 && i < Pow2(power)
    ensures exists k :: 0 <= k < Pow2(power) && Probe(h, power, k) == i
  {
    ProbedSize(h, power, Pow2(power));
    BelowSize(Pow2(power));
    SubsetOfSameSize(Probed(h, power, Pow2(power)), Below(Pow2(power)));
    assert i in Below(Pow2(power));
  }
}
