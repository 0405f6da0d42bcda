/**
 * Probing in a table of 2^n slots: from a first slot in steps of 1, 2, 3, ...  Every slot is visited
 * within as many probes as there are slots.
 */
module HashProbe {
  import opened Arithmetic

  // The sum 1 + 2 + ... + j.
  function Tri(j: nat): nat {
    if j == 0 then 0 else Tri(j - 1) + j
  }

  // The slot looked at after `j` steps.
  function Probe(start: nat, j: nat, size: nat): nat
    requires size > 0
  {
    (start + Tri(j)) % size
  }

  /** The loop's update of the index computes the next probe. */
  lemma ProbeNext(start: nat, j: nat, size: nat)
    requires size > 0
    ensures (Probe(start, j, size) + (j + 1)) % size == Probe(start, j + 1, size)
  {
    ModStep(start + Tri(j), j + 1, size);
  }

  /// All slots are visited

  lemma {:induction false} OddFactor(a: nat, b: nat, n: nat)
    requires a % 2 == 1 && (a * b) % Pow2(n) == 0
    ensures b % Pow2(n) == 0
    decreases n
  {
    if n > 0 {
      var m := Pow2(n - 1);
      var q := (a * b) / (2 * m);
      assert a * b == q * (2 * m);
      assert a * b == 2 * (q * m) by { assert q * (2 * m) == 2 * (q * m); }
      EvenFactor(a, b, q * m);
      var c := b / 2;
      assert b == 2 * c;
      assert a * b == 2 * (a * c) by { assert a * (2 * c) == 2 * (a * c); }
      assert a * c == q * m;
      MulMod(q, m);
      OddFactor(a, c, n - 1);
      var p := c / m;
      assert c == p * m;
      assert b == p * (2 * m) by { assert 2 * (p * m) == p * (2 * m); }
      MulMod(p, 2 * m);
    }
  }

  lemma OddTimesOdd(a: nat, b: nat)
    requires a % 2 == 1 && b % 2 == 1
    ensures (a * b) % 2 == 1
  {
    var x := a / 2;
    assert a * b == 2 * (x * b) + b by { assert (2 * x + 1) * b == 2 * (x * b) + b; }
  }

  lemma EvenFactor(a: nat, b: nat, k: nat)
    requires a % 2 == 1 && a * b == 2 * k
    ensures b % 2 == 0
  {
    if b % 2 == 1 {
      OddTimesOdd(a, b);
    }
  }

  lemma {:induction false} TriDouble(j: nat)
    ensures 2 * Tri(j) == j * (j + 1)
  {
    if j > 0 {
      TriDouble(j - 1);
      assert j * (j + 1) == (j - 1) * j + 2 * j;
    }
  }

  // A product of an odd and an even number below 2^n is no multiple of 2^n.
  lemma NoOddSplit(d: nat, e: nat, n: nat)
    requires d % 2 == 1 && 0 < e < Pow2(n)
    ensures (d * e) % Pow2(n) != 0
  {
    SmallMod(e, Pow2(n));
    if (d * e) % Pow2(n) == 0 {
      OddFactor(d, e, n);
    }
  }

  lemma NoSplit(d: nat, e: nat, n: nat)
    requires 0 < d < Pow2(n) && 0 < e < Pow2(n) && (d + e) % 2 == 1
    ensures (d * e) % Pow2(n) != 0
  {
    if d % 2 == 1 {
      NoOddSplit(d, e, n);
    } else {
      NoOddSplit(e, d, n);
      assert e * d == d * e;
    }
  }

  lemma TwiceMultiple(x: nat, m: nat)
    requires m > 0 && x % m == 0
    ensures (2 * x) % (2 * m) == 0
  {
    var q := x / m;
    assert x == q * m;
    assert 2 * x == q * (2 * m) by { assert 2 * (q * m) == q * (2 * m); }
    MulMod(q, 2 * m);
  }

  // Two different step counts below 2^n lead to different offsets.
  lemma TriDiffer(i: nat, j: nat, n: nat)
    requires i < j < Pow2(n)
    ensures Tri(i) <= Tri(j) && (Tri(j) - Tri(i)) % Pow2(n) != 0
  {
    TriGrows(i, j);
    TriDouble(i);
    TriDouble(j);
    Difference(i, j);
    var x := Tri(j) - Tri(i);
    assert 2 * x == (j - i) * (i + j + 1);
    NoSplit(j - i, i + j + 1, n + 1);
    if x % Pow2(n) == 0 {
      TwiceMultiple(x, Pow2(n));
    }
  }

  lemma Difference(i: nat, j: nat)
    requires i <= j
    ensures (j - i) * (i + j + 1) == j * (j + 1) - i * (i + 1)
  {
  }

  lemma {:induction false} TriGrows(i: nat, j: nat)
    requires i <= j
    ensures Tri(i) <= Tri(j)
    decreases j
  {
    if i < j {
      TriGrows(i, j - 1);
    }
  }

  lemma SameMod(a: nat, b: nat, m: nat)
    requires m > 0 && a <= b && a % m == b % m
    ensures (b - a) % m == 0
  {
    var p, q := a / m, b / m;
    assert a == p * m + a % m && b == q * m + b % m;
    if q < p {
      MulGap(q, p, m);
    }
    assert b - a == (q - p) * m by { assert (q - p) * m == q * m - p * m; }
    MulMod(q - p, m);
  }

  /** Different probes of one search look at different slots. */
  lemma ProbesDiffer(start: nat, i: nat, j: nat, n: nat)
    requires i < j < Pow2(n)
    ensures Probe(start, i, Pow2(n)) != Probe(start, j, Pow2(n))
  {
    TriGrows(i, j);
    if Probe(start, i, Pow2(n)) == Probe(start, j, Pow2(n)) {
      SameMod(start + Tri(i), start + Tri(j), Pow2(n));
      TriDiffer(i, j, n);
    }
  }

  // The slots of the first `k` probes.
  ghost function Seen(start: nat, k: nat, size: nat): set<nat>
    requires size > 0
  {
    set j | 0 <= j < k :: Probe(start, j, size)
  }

  lemma {:induction false} SeenCount(start: nat, k: nat, n: nat)
    requires k <= Pow2(n)
    ensures |Seen(start, k, Pow2(n))| == k
  {
    var size := Pow2(n);
    if k > 0 {
      SeenCount(start, k - 1, n);
      assert Probe(start, k - 1, size) !in Seen(start, k - 1, size) by {
        forall j | 0 <= j < k - 1 ensures Probe(start, j, size) != Probe(start, k - 1, size) {
          ProbesDiffer(start, j, k - 1, n);
        }
      }
      assert Seen(start, k, size) == Seen(start, k - 1, size) + {Probe(start, k - 1, size)};
    } else {
      assert Seen(start, 0, size) == {};
    }
  }

  ghost function Below(n: nat): set<nat> {
    if n == 0 then {} else Below(n - 1) + {n - 1}
  }

  lemma {:induction false} BelowIs(n: nat)
    ensures |Below(n)| == n && forall i: nat :: i in Below(n) <==> i < n
  {
    if n > 0 {
      BelowIs(n - 1);
    }
  }

  lemma SubsetFull(a: set<nat>, b: set<nat>)
    requires a <= b && |a| == |b|
    ensures a == b
  {
    assert b == a + (b - a);
    assert |b| == |a| + |b - a|;
  }

  /** Every slot is looked at within 2^n probes, from wherever the search starts. */
  lemma ProbesCover(start: nat, n: nat, slot: nat) returns (j: nat)
    requires slot < Pow2(n)
    ensures j < Pow2(n) && Probe(start, j, Pow2(n)) == slot
  {
    var size := Pow2(n);
    SeenCount(start, size, n);
    BelowIs(size);
    SubsetFull(Seen(start, size, size), Below(size));
    assert slot in Seen(start, size, size);
    j :| 0 <= j < size && Probe(start, j, size) == slot;
  }
}
