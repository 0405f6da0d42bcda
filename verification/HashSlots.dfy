/**
 * The slots of an open-addressed hash table as values: when every live entry can be found by probing,
 * which map the slots stand for, and what filling, changing and emptying one slot does to both.
 */
module HashSlots {
  import opened Arithmetic
  import opened HashProbe

  const UNUSED: nat := 0
  const TOMBSTONE: nat := 1

  predicate Real(h: nat) {
    h >= 2
  }

  // The functions that the user of a table supplies.
  datatype Keying<!P> = Keying(hash: P -> nat, same: (P, P) -> bool)

  ghost predicate Sound<P(!new)>(f: Keying<P>) {
    && (forall a :: f.same(a, a))
    && (forall a, b :: f.same(a, b) ==> f.same(b, a) && f.hash(a) == f.hash(b))
    && (forall a, b, c :: f.same(a, b) && f.same(b, c) ==> f.same(a, c))
  }

  function HashOf<P>(f: Keying<P>, x: P): nat {
    if Real(f.hash(x)) then f.hash(x) else 2
  }

  datatype Slots<P> = Slots(h: seq<nat>, k: seq<P>, v: seq<P>, shift: nat, mod: nat)

  ghost predicate Shape<P>(t: Slots<P>) {
    |t.h| == |t.k| == |t.v| == Pow2(t.shift) && 0 < t.mod <= Pow2(t.shift)
  }

  // The slot that the `j`-th probe for hash `x` looks at.
  ghost function Spot<P>(t: Slots<P>, x: nat, j: nat): nat
    requires Shape(t)
  {
    Probe(x % t.mod, j, Pow2(t.shift))
  }

  // The first `j` probes for hash `x` find no unused slot.
  ghost predicate Busy<P>(t: Slots<P>, x: nat, j: nat)
    requires Shape(t)
  {
    forall q: nat | q < j :: t.h[Spot(t, x, q)] != UNUSED
  }

  // The `j`-th probe for hash `x` gets to slot `i`, and no search stops before.
  ghost predicate LeadsTo<P>(t: Slots<P>, x: nat, i: nat, j: nat)
    requires Shape(t)
  {
    j < Pow2(t.shift) && Spot(t, x, j) == i && Busy(t, x, j)
  }

  ghost predicate Found<P>(t: Slots<P>, x: nat, i: nat)
    requires Shape(t)
  {
    exists j: nat :: LeadsTo(t, x, i, j)
  }

  // Slot `i` is free, and every slot looked at before it holds an entry.
  ghost predicate FirstFree<P>(t: Slots<P>, x: nat, i: nat)
    requires Shape(t)
  {
    exists j: nat :: LeadsTo(t, x, i, j) && !Real(t.h[i]) && AllReal(t, x, j)
  }

  ghost predicate AllReal<P>(t: Slots<P>, x: nat, j: nat)
    requires Shape(t)
  {
    forall q: nat | q < j :: Real(t.h[Spot(t, x, q)])
  }

  ghost predicate EntryOk<P>(f: Keying<P>, t: Slots<P>, i: nat)
    requires Shape(t) && i < |t.h|
  {
    Real(t.h[i]) ==> t.h[i] == HashOf(f, t.k[i]) && Found(t, t.h[i], i)
  }

  ghost predicate PairOk<P>(f: Keying<P>, t: Slots<P>, i: nat, j: nat)
    requires Shape(t) && i < |t.h| && j < |t.h|
  {
    i != j && Real(t.h[i]) && Real(t.h[j]) ==> !f.same(t.k[i], t.k[j])
  }

  ghost predicate Ok<P>(f: Keying<P>, t: Slots<P>) {
    && Shape(t)
    && (forall i: nat | i < |t.h| :: EntryOk(f, t, i))
    && (forall i: nat, j: nat | i < |t.h| && j < |t.h| :: PairOk(f, t, i, j))
  }

  // No live entry has this key.
  ghost predicate Absent<P>(f: Keying<P>, t: Slots<P>, key: P)
    requires Shape(t)
  {
    forall i: nat | i < |t.h| && Real(t.h[i]) :: !f.same(t.k[i], key)
  }

  /// The map that the slots stand for

  ghost predicate Stores<P>(t: Slots<P>, x: P)
    requires Shape(t)
  {
    exists i: nat | i < |t.h| :: Real(t.h[i]) && t.k[i] == x
  }

  ghost predicate Maps<P>(t: Slots<P>, m: map<P, P>)
    requires Shape(t)
  {
    && (forall i: nat | i < |t.h| && Real(t.h[i]) :: t.k[i] in m && m[t.k[i]] == t.v[i])
    && (forall x | x in m :: Stores(t, x))
  }

  /** A key is absent from the slots exactly when the map has no equal key. */
  lemma AbsentIsNotMapped<P>(f: Keying<P>, t: Slots<P>, m: map<P, P>, key: P)
    requires Shape(t) && Maps(t, m)
    ensures Absent(f, t, key) <==> forall x | x in m :: !f.same(x, key)
  {
    if Absent(f, t, key) {
      forall x | x in m ensures !f.same(x, key) {
        assert Stores(t, x);
      }
    }
  }

  /// Searching

  /** A search that meets an unused slot without meeting the key has shown that the key is absent. */
  lemma MissIsAbsent<P(!new)>(f: Keying<P>, t: Slots<P>, key: P, j: nat)
    requires Sound(f) && Ok(f, t) && j < Pow2(t.shift)
    requires t.h[Spot(t, HashOf(f, key), j)] == UNUSED && Passed(f, t, key, j)
    ensures Absent(f, t, key)
  {
    forall i: nat | i < |t.h| && Real(t.h[i]) ensures !f.same(t.k[i], key) {
      var x := HashOf(f, key);
      assert EntryOk(f, t, i);
      if t.h[i] == x {
        var d: nat :| LeadsTo(t, x, i, d);
        assert d < j;
        assert t.h[Spot(t, x, d)] == x;
      }
    }
  }

  // The first `j` probes for the key found neither it nor an unused slot.
  ghost predicate Passed<P>(f: Keying<P>, t: Slots<P>, key: P, j: nat)
    requires Shape(t)
  {
    var x := HashOf(f, key);
    forall q: nat | q < j :: t.h[Spot(t, x, q)] != UNUSED && !(t.h[Spot(t, x, q)] == x && f.same(t.k[Spot(t, x, q)], key))
  }

  /** A search starts at the hash modulo the prime, and its index update leads to the next slot to look at. */
  lemma SearchMoves<P>(t: Slots<P>, x: nat, j: nat)
    requires Shape(t)
    ensures Spot(t, x, 0) == x % t.mod < |t.h|
    ensures Spot(t, x, j + 1) == (Spot(t, x, j) + (j + 1)) % |t.h| < |t.h|
  {
    ProbeNext(x % t.mod, j, Pow2(t.shift));
    SmallMod(x % t.mod, Pow2(t.shift));
  }

  /** A search in a table with an unused slot meets one within as many steps as there are slots. */
  lemma SearchEnds<P>(t: Slots<P>, x: nat) returns (last: nat)
    requires Shape(t) && Count(t.h, 1) < |t.h|
    ensures last < |t.h| && t.h[Spot(t, x, last)] == UNUSED
  {
    var z := UnusedSlot(t.h);
    last := ProbesCover(x % t.mod, t.shift, z);
  }

  lemma PassOn<P>(f: Keying<P>, t: Slots<P>, key: P, j: nat, i: nat, last: nat)
    requires Shape(t) && Passed(f, t, key, j) && i == Spot(t, HashOf(f, key), j)
    requires t.h[i] != UNUSED && !(t.h[i] == HashOf(f, key) && f.same(t.k[i], key))
    requires j <= last < |t.h| && t.h[Spot(t, HashOf(f, key), last)] == UNUSED
    ensures Passed(f, t, key, j + 1) && j < last && LeadsTo(t, HashOf(f, key), i, j)
  {
  }

  // One probe further, with the first free slot met so far, if any.
  lemma FreeOn<P>(t: Slots<P>, x: nat, j: nat, i: nat)
    requires Shape(t) && AllReal(t, x, j) && i == Spot(t, x, j) && j < |t.h|
    ensures Real(t.h[i]) ==> AllReal(t, x, j + 1)
    ensures !Real(t.h[i]) ==> FirstFree(t, x, i)
  {
    assert LeadsTo(t, x, i, j);
  }

  // A search for `key` at its `step`-th probe, slot `i`; probe `last` will meet an unused slot.
  ghost predicate Searching<P>(f: Keying<P>, t: Slots<P>, key: P, step: nat, i: nat, last: nat, have: bool, first: nat)
    requires Shape(t)
  {
    match t
    case Slots(h, _, _, _, _) =>
      var x := HashOf(f, key);
      && step <= last < |h| && h[Spot(t, x, last)] == UNUSED
      && i < |h| && i == Spot(t, x, step) && Passed(f, t, key, step)
      && (if have then first < |h| && FirstFree(t, x, first) else AllReal(t, x, step))
  }

  lemma SearchStarts<P>(f: Keying<P>, t: Slots<P>, key: P) returns (last: nat)
    requires Shape(t) && Count(t.h, 1) < |t.h|
    ensures Searching(f, t, key, 0, HashOf(f, key) % t.mod, last, false, 0)
  {
    last := SearchEnds(t, HashOf(f, key));
    SearchMoves(t, HashOf(f, key), 0);
  }

  /** One turn of the search loop. */
  lemma SearchNext<P>(f: Keying<P>, t: Slots<P>, key: P, step: nat, i: nat, last: nat, have: bool, first: nat)
    requires Shape(t) && Searching(f, t, key, step, i, last, have, first)
    requires t.h[i] != UNUSED && !(t.h[i] == HashOf(f, key) && f.same(t.k[i], key))
    ensures step < last
    ensures var tomb := t.h[i] == TOMBSTONE;
            Searching(f, t, key, step + 1, (i + (step + 1)) % |t.h|, last, have || tomb, if !have && tomb then i else first)
  {
    var x := HashOf(f, key);
    PassOn(f, t, key, step, i, last);
    SearchMoves(t, x, step);
    if !have {
      FreeOn(t, x, step, i);
    }
  }

  /** Where the search loop ends. */
  lemma SearchDone<P(!new)>(f: Keying<P>, t: Slots<P>, key: P, step: nat, i: nat, last: nat, have: bool, first: nat)
    requires Sound(f) && Ok(f, t) && Searching(f, t, key, step, i, last, have, first) && t.h[i] == UNUSED
    ensures Absent(f, t, key) && FirstFree(t, HashOf(f, key), if have then first else i)
  {
    MissIsAbsent(f, t, key, step);
    if !have {
      FreeOn(t, HashOf(f, key), step, i);
    }
  }

  /// Changing one slot

  function Put<P>(t: Slots<P>, i: nat, x: nat, key: P, value: P): Slots<P>
    requires i < |t.h| && |t.h| == |t.k| == |t.v|
  {
    t.(h := t.h[i := x], k := t.k[i := key], v := t.v[i := value])
  }

  // Slots that were in use stay in use, so probe paths stay unbroken.
  lemma StillFound<P>(t: Slots<P>, t': Slots<P>, x: nat, i: nat)
    requires Shape(t) && Shape(t') && t'.shift == t.shift && t'.mod == t.mod && Found(t, x, i)
    requires forall q: nat | q < |t.h| && t.h[q] != UNUSED :: t'.h[q] != UNUSED
    ensures Found(t', x, i)
  {
    var j: nat :| LeadsTo(t, x, i, j);
    forall q: nat | q < j ensures t'.h[Spot(t', x, q)] != UNUSED {
      assert t.h[Spot(t, x, q)] != UNUSED;
    }
    assert LeadsTo(t', x, i, j);
  }

  lemma PutEntries<P>(f: Keying<P>, t: Slots<P>, i: nat, x: nat, key: P, value: P)
    requires Ok(f, t) && i < |t.h| && x != UNUSED && (Real(x) ==> x == HashOf(f, key) && Found(t, x, i))
    ensures forall q: nat | q < |t.h| :: EntryOk(f, Put(t, i, x, key, value), q)
  {
    var t' := Put(t, i, x, key, value);
    forall q: nat | q < |t.h| ensures EntryOk(f, t', q) {
      assert EntryOk(f, t, q);
      if Real(t'.h[q]) {
        StillFound(t, t', t'.h[q], q);
      }
    }
  }

  lemma PutPairs<P(!new)>(f: Keying<P>, t: Slots<P>, i: nat, x: nat, key: P, value: P)
    requires Sound(f) && Ok(f, t) && i < |t.h|
    requires Real(x) ==> forall q: nat | q < |t.h| && q != i && Real(t.h[q]) :: !f.same(t.k[q], key)
    ensures forall q: nat, r: nat | q < |t.h| && r < |t.h| :: PairOk(f, Put(t, i, x, key, value), q, r)
  {
    var t' := Put(t, i, x, key, value);
    forall q: nat, r: nat | q < |t.h| && r < |t.h| ensures PairOk(f, t', q, r) {
      assert PairOk(f, t, q, r);
    }
  }

  /** Filling a slot on the probe path of an absent key, be it unused or a tombstone, adds the key to the map. */
  lemma PutNew<P(!new)>(f: Keying<P>, t: Slots<P>, m: map<P, P>, i: nat, key: P, value: P)
    requires Sound(f) && Ok(f, t) && Maps(t, m) && i < |t.h| && !Real(t.h[i]) && Absent(f, t, key)
    requires Found(t, HashOf(f, key), i)
    ensures var t' := Put(t, i, HashOf(f, key), key, value);
            Ok(f, t') && Maps(t', m[key := value])
  {
    var x := HashOf(f, key);
    var t' := Put(t, i, x, key, value);
    PutEntries(f, t, i, x, key, value);
    PutPairs(f, t, i, x, key, value);
    forall y | y in m[key := value] ensures Stores(t', y) {
      if y == key {
        assert t'.k[i] == y;
      } else {
        assert Stores(t, y);
        var q: nat :| q < |t.h| && Real(t.h[q]) && t.k[q] == y;
        assert t'.k[q] == y;
      }
    }
  }

  /** Rewriting a live slot changes the value of its key, and the key to an equal one. */
  lemma PutOver<P(!new)>(f: Keying<P>, t: Slots<P>, m: map<P, P>, i: nat, key: P, value: P)
    requires Sound(f) && Ok(f, t) && Maps(t, m) && i < |t.h| && Real(t.h[i]) && f.same(t.k[i], key)
    ensures var t' := Put(t, i, t.h[i], key, value);
            Ok(f, t') && Maps(t', (m - {t.k[i]})[key := value])
  {
    var t' := Put(t, i, t.h[i], key, value);
    assert EntryOk(f, t, i);
    PutEntries(f, t, i, t.h[i], key, value);
    forall q: nat | q < |t.h| && q != i && Real(t.h[q]) ensures !f.same(t.k[q], key) {
      assert PairOk(f, t, q, i);
    }
    PutPairs(f, t, i, t.h[i], key, value);
    OthersKept(f, t, m, t', i);
    assert t'.k[i] == key;
  }

  /** Erecting a tombstone removes the key from the map and breaks no probe path. */
  lemma PutTombstone<P(!new)>(f: Keying<P>, t: Slots<P>, m: map<P, P>, i: nat, nil: P)
    requires Sound(f) && Ok(f, t) && Maps(t, m) && i < |t.h| && Real(t.h[i])
    ensures var t' := Put(t, i, TOMBSTONE, nil, nil);
            Ok(f, t') && Maps(t', m - {t.k[i]})
  {
    var t' := Put(t, i, TOMBSTONE, nil, nil);
    PutEntries(f, t, i, TOMBSTONE, nil, nil);
    PutPairs(f, t, i, TOMBSTONE, nil, nil);
    OthersKept(f, t, m, t', i);
  }

  // The other live entries, after a change of live slot `i`.
  lemma OthersKept<P(!new)>(f: Keying<P>, t: Slots<P>, m: map<P, P>, t': Slots<P>, i: nat)
    requires Sound(f) && Ok(f, t) && Maps(t, m) && i < |t.h| && Real(t.h[i])
    requires Shape(t') && |t'.h| == |t.h|
    requires forall q: nat | q < |t.h| && q != i :: t'.h[q] == t.h[q] && t'.k[q] == t.k[q] && t'.v[q] == t.v[q]
    ensures forall q: nat | q < |t.h| && q != i && Real(t.h[q]) :: t.k[q] != t.k[i]
    ensures forall y | y in m - {t.k[i]} :: Stores(t', y)
  {
    forall q: nat | q < |t.h| && q != i && Real(t.h[q]) ensures t.k[q] != t.k[i] {
      assert PairOk(f, t, q, i);
    }
    forall y | y in m - {t.k[i]} ensures Stores(t', y) {
      assert Stores(t, y);
      var q: nat :| q < |t.h| && Real(t.h[q]) && t.k[q] == y;
      assert t'.k[q] == y;
    }
  }

  /// Counting

  // How many slots hold a hash of at least `lo`.
  function Count(h: seq<nat>, lo: nat): nat {
    if h == [] then 0 else Count(h[..|h| - 1], lo) + (if h[|h| - 1] >= lo then 1 else 0)
  }

  lemma {:induction false} CountUpdate(h: seq<nat>, i: nat, x: nat, lo: nat)
    requires i < |h|
    ensures Count(h[i := x], lo) == Count(h, lo) - (if h[i] >= lo then 1 else 0) + (if x >= lo then 1 else 0)
  {
    var n := |h| - 1;
    if i == n {
      assert h[i := x][..n] == h[..n];
    } else {
      assert h[i := x][..n] == h[..n][i := x];
      CountUpdate(h[..n], i, x, lo);
    }
  }

  lemma {:induction false} CountBound(h: seq<nat>, lo: nat, hi: nat)
    requires lo <= hi
    ensures Count(h, hi) <= Count(h, lo) <= |h|
  {
    if h != [] {
      CountBound(h[..|h| - 1], lo, hi);
    }
  }

  /** When fewer slots are occupied than there are, one is unused. */
  lemma {:induction false} UnusedSlot(h: seq<nat>) returns (z: nat)
    requires Count(h, 1) < |h|
    ensures z < |h| && h[z] == UNUSED
  {
    var n := |h| - 1;
    if h[n] == UNUSED {
      z := n;
    } else {
      z := UnusedSlot(h[..n]);
    }
  }

  lemma {:induction false} CountZero(h: seq<nat>, lo: nat)
    requires forall i | 0 <= i < |h| :: h[i] < lo
    ensures Count(h, lo) == 0
  {
    if h != [] {
      CountZero(h[..|h| - 1], lo);
    }
  }

  lemma MapOver<P>(m: map<P, P>, x: P, value: P)
    ensures (m - {x})[x := value] == m[x := value]
  {
  }

  // The slots stand for `m`; `live` of them hold an entry and `used` of them were ever used.
  ghost predicate Stands<P>(f: Keying<P>, t: Slots<P>, m: map<P, P>, live: nat, used: nat) {
    Ok(f, t) && Maps(t, m) && live == Count(t.h, 2) && used == Count(t.h, 1)
  }

  // What g_hash_table_insert_node writes: a live slot keeps its hash, and its key unless the new one is wanted.
  function Written<P>(t: Slots<P>, i: nat, x: nat, key: P, value: P, keepNew: bool): Slots<P>
    requires i < |t.h| && |t.h| == |t.k| == |t.v|
  {
    if Real(t.h[i]) then Put(t, i, t.h[i], if keepNew then key else t.k[i], value)
    else Put(t, i, x, key, value)
  }

  // PutOver for an insertion that keeps the stored key or takes the new one, with the counts.
  lemma PutEither<P(!new)>(f: Keying<P>, t: Slots<P>, m: map<P, P>, live: nat, used: nat, i: nat, x: nat, key: P, value: P, keepNew: bool)
    requires Sound(f) && Stands(f, t, m, live, used) && i < |t.h| && Real(t.h[i]) && f.same(t.k[i], key)
    ensures var m' := if keepNew then (m - {t.k[i]})[key := value] else m[t.k[i] := value];
            Stands(f, Written(t, i, x, key, value, keepNew), m', live, used)
  {
    assert t.h[i := t.h[i]] == t.h;
    PutOver(f, t, m, i, if keepNew then key else t.k[i], value);
    MapOver(m, t.k[i], value);
  }

  /// Rehashing

  // The map of the first `n` slots.
  ghost function Prefix<P>(t: Slots<P>, n: nat): map<P, P>
    requires Shape(t) && n <= |t.h|
  {
    if n == 0 then map[]
    else if Real(t.h[n - 1]) then Prefix(t, n - 1)[t.k[n - 1] := t.v[n - 1]]
    else Prefix(t, n - 1)
  }

  lemma {:induction false} PrefixKeys<P>(t: Slots<P>, n: nat, x: P)
    requires Shape(t) && n <= |t.h|
    ensures x in Prefix(t, n) <==> exists i: nat | i < n :: Real(t.h[i]) && t.k[i] == x
  {
    if n > 0 {
      PrefixKeys(t, n - 1, x);
      if exists i: nat | i < n :: Real(t.h[i]) && t.k[i] == x {
        var i: nat :| i < n && Real(t.h[i]) && t.k[i] == x;
        assert i == n - 1 || i < n - 1;
      }
      if x in Prefix(t, n - 1) {
        var i: nat :| i < n - 1 && Real(t.h[i]) && t.k[i] == x;
        assert i < n;
      }
    }
  }

  lemma {:induction false} PrefixValue<P>(t: Slots<P>, m: map<P, P>, n: nat, x: P)
    requires Shape(t) && Maps(t, m) && n <= |t.h| && x in Prefix(t, n)
    ensures x in m && m[x] == Prefix(t, n)[x]
  {
    if Real(t.h[n - 1]) && t.k[n - 1] == x {
    } else {
      PrefixValue(t, m, n - 1, x);
    }
  }

  lemma PrefixFull<P>(t: Slots<P>, m: map<P, P>)
    requires Shape(t) && Maps(t, m)
    ensures Prefix(t, |t.h|) == m
  {
    forall x | x in Prefix(t, |t.h|) ensures x in m && m[x] == Prefix(t, |t.h|)[x] {
      PrefixValue(t, m, |t.h|, x);
    }
    forall x | x in m ensures x in Prefix(t, |t.h|) {
      assert Stores(t, x);
      PrefixKeys(t, |t.h|, x);
    }
  }

  // A table that holds the first `i` entries of `t` does not hold the next one.
  lemma PrefixAbsent<P(!new)>(f: Keying<P>, t: Slots<P>, t': Slots<P>, i: nat)
    requires Sound(f) && Ok(f, t) && i < |t.h| && Real(t.h[i]) && Shape(t') && Maps(t', Prefix(t, i))
    ensures Absent(f, t', t.k[i])
  {
    forall x | x in Prefix(t, i) ensures !f.same(x, t.k[i]) {
      PrefixKeys(t, i, x);
      var q: nat :| q < i && Real(t.h[q]) && t.k[q] == x;
      assert PairOk(f, t, q, i);
    }
    AbsentIsNotMapped(f, t', Prefix(t, i), t.k[i]);
  }

  // `t'` holds the first `i` entries of `t` and nothing else, not even tombstones.
  ghost predicate Rehashed<P>(f: Keying<P>, t: Slots<P>, t': Slots<P>, i: nat)
    requires Shape(t) && i <= |t.h|
  {
    && Ok(f, t') && Maps(t', Prefix(t, i))
    && Count(t'.h, 1) == Count(t'.h, 2) == Count(t.h[..i], 2)
  }

  /** Moving one live entry to an unused slot of its probe path moves it from the old map to the new one. */
  lemma RehashOne<P(!new)>(f: Keying<P>, t: Slots<P>, t': Slots<P>, i: nat, slot: nat)
    requires Sound(f) && Ok(f, t) && i < |t.h| && Real(t.h[i]) && Rehashed(f, t, t', i)
    requires slot < |t'.h| && t'.h[slot] == UNUSED && Found(t', t.h[i], slot)
    ensures Rehashed(f, t, Put(t', slot, t.h[i], t.k[i], t.v[i]), i + 1)
  {
    assert EntryOk(f, t, i);
    PrefixAbsent(f, t, t', i);
    PutNew(f, t', Prefix(t, i), slot, t.k[i], t.v[i]);
    CountUpdate(t'.h, slot, t.h[i], 1);
    CountUpdate(t'.h, slot, t.h[i], 2);
    assert t.h[..i + 1][..i] == t.h[..i];
  }

  lemma RehashNone<P>(f: Keying<P>, t: Slots<P>, t': Slots<P>, i: nat)
    requires Shape(t) && i < |t.h| && !Real(t.h[i]) && Rehashed(f, t, t', i)
    ensures Rehashed(f, t, t', i + 1)
  {
    assert t.h[..i + 1][..i] == t.h[..i];
  }

  lemma {:induction false} CountPrefix(h: seq<nat>, i: nat, lo: nat)
    requires i <= |h|
    ensures Count(h[..i], lo) <= Count(h, lo)
    decreases |h|
  {
    if i < |h| {
      assert h[..|h| - 1][..i] == h[..i];
      CountPrefix(h[..|h| - 1], i, lo);
    } else {
      assert h[..i] == h;
    }
  }

  lemma EmptyRehashed<P>(f: Keying<P>, t: Slots<P>, t': Slots<P>)
    requires Shape(t) && Shape(t') && forall q | 0 <= q < |t'.h| :: t'.h[q] == UNUSED
    ensures Rehashed(f, t, t', 0)
  {
    CountZero(t'.h, 1);
    CountZero(t'.h, 2);
    assert t.h[..0] == [];
  }

  lemma EmptyStands<P>(f: Keying<P>, t: Slots<P>)
    requires Shape(t) && forall q | 0 <= q < |t.h| :: t.h[q] == UNUSED
    ensures Stands(f, t, map[], 0, 0)
  {
    CountZero(t.h, 1);
    CountZero(t.h, 2);
  }

  /// Removing by a test

  // The keys of the first `n` slots whose entries pass the test.
  ghost function Chosen<P(!new)>(t: Slots<P>, test: (P, P) -> bool, n: nat): set<P>
    requires Shape(t) && n <= |t.h|
  {
    if n == 0 then {}
    else Chosen(t, test, n - 1) + (if Real(t.h[n - 1]) && test(t.k[n - 1], t.v[n - 1]) then {t.k[n - 1]} else {})
  }

  lemma {:induction false} ChosenKeys<P(!new)>(t: Slots<P>, m: map<P, P>, test: (P, P) -> bool, n: nat, x: P)
    requires Shape(t) && Maps(t, m) && n <= |t.h|
    ensures x in Chosen(t, test, n) ==> x in m && test(x, m[x])
    ensures (exists i: nat | i < n :: Real(t.h[i]) && t.k[i] == x) && test(x, m[x]) ==> x in Chosen(t, test, n)
  {
    if n > 0 {
      ChosenKeys(t, m, test, n - 1, x);
    }
  }

  lemma ChosenAll<P(!new)>(t: Slots<P>, m: map<P, P>, test: (P, P) -> bool)
    requires Shape(t) && Maps(t, m)
    ensures m - Chosen(t, test, |t.h|) == map x | x in m && !test(x, m[x]) :: m[x]
  {
    forall x | x in m ensures x in Chosen(t, test, |t.h|) <==> test(x, m[x]) {
      assert Stores(t, x);
      ChosenKeys(t, m, test, |t.h|, x);
    }
  }
}
