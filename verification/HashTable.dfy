/**
 * GHashTable: keys, hashes and values in arrays that are updated in place, with one array shared between
 * keys and values for as long as every key is its own value.
 */
module HashTable {
  import opened Arithmetic
  import opened HashSlots

  const HASH_TABLE_MIN_SHIFT: nat := 3

  // The first prime below each table size.
  const PRIME_MOD: seq<nat> := [
    1, 2, 3, 7, 13, 31, 61, 127, 251, 509, 1021, 2039, 4093, 8191, 16381, 32749,
    65521, 131071, 262139, 524287, 1048573, 2097143, 4194301, 8388593, 16777213, 33554393,
    67108859, 134217689, 268435399, 536870909, 1073741789, 2147483647]

  // Twice the number of nodes, and the table size made from it, fit a gint.
  const MAX_NODES: nat := 0x2000_0000

  lemma SmallPowers()
    ensures Pow2(3) == 8 && Pow2(4) == 16 && Pow2(5) == 32 && Pow2(6) == 64 && Pow2(7) == 128 && Pow2(8) == 256
    ensures Pow2(9) == 512 && Pow2(10) == 1024 && Pow2(11) == 2048 && Pow2(12) == 4096 && Pow2(13) == 8192
    ensures Pow2(14) == 16384 && Pow2(15) == 32768 && Pow2(16) == 65536
  {
  }

  lemma LargePowers()
    ensures Pow2(17) == 131072 && Pow2(18) == 262144 && Pow2(19) == 524288 && Pow2(20) == 1048576
    ensures Pow2(21) == 2097152 && Pow2(22) == 4194304 && Pow2(23) == 8388608 && Pow2(24) == 16777216
    ensures Pow2(25) == 33554432 && Pow2(26) == 67108864 && Pow2(27) == 134217728
    ensures Pow2(28) == 268435456 && Pow2(29) == 536870912 && Pow2(30) == 0x4000_0000
  {
    SmallPowers();
  }

  /** Every first slot is a slot of the table. */
  lemma ModFits(shift: nat)
    requires HASH_TABLE_MIN_SHIFT <= shift <= 30
    ensures 0 < PRIME_MOD[shift] <= Pow2(shift)
  {
    SmallPowers();
    LargePowers();
  }

  lemma {:induction false} PowGrows(i: nat, j: nat)
    requires i <= j
    ensures Pow2(i) <= Pow2(j)
    decreases j
  {
    if i < j {
      PowGrows(i, j - 1);
    }
  }

  /** g_hash_table_set_shift: the mask is all ones below the size. */
  method SetShift(shift: nat) returns (size: nat, mod: nat, mask: nat)
    requires HASH_TABLE_MIN_SHIFT <= shift <= 30
    ensures size == Pow2(shift) && mod == PRIME_MOD[shift] && mask + 1 == size
  {
    size, mod, mask := Pow2(shift), PRIME_MOD[shift], 0;
    for i := 0 to shift
      invariant mask + 1 == Pow2(i)
    {
      mask := 2 * mask + 1;
    }
  }

  /** g_hash_table_find_closest_shift: the number of bits of `n`. */
  method FindClosestShift(n: nat) returns (i: nat)
    ensures n < Pow2(i) && (if n == 0 then i == 0 else i > 0 && Pow2(i - 1) <= n)
  {
    var rest := n;
    i := 0;
    while rest != 0
      invariant Bits(rest, i, n)
      invariant rest == 0 && n > 0 ==> i > 0 && Pow2(i - 1) <= n
      invariant n == 0 ==> rest == 0 && i == 0
    {
      HalfStep(rest, i, n);
      rest := rest / 2;
      i := i + 1;
    }
  }

  // `rest` is `n` shifted right by `i`.
  ghost predicate Bits(rest: nat, i: nat, n: nat) {
    rest * Pow2(i) <= n < (rest + 1) * Pow2(i)
  }

  lemma HalfStep(rest: nat, i: nat, n: nat)
    requires rest > 0 && Bits(rest, i, n)
    ensures Bits(rest / 2, i + 1, n) && Pow2(i) <= n
  {
    var h, p := rest / 2, Pow2(i);
    Twice(h, p);
    Twice(h + 1, p);
    Monotone(2 * h, rest, p);
    Monotone(rest + 1, 2 * h + 2, p);
    Monotone(1, rest, p);
  }

  lemma Twice(h: nat, p: nat)
    ensures h * (2 * p) == (2 * h) * p
  {
  }

  lemma Monotone(a: nat, b: nat, p: nat)
    requires a <= b
    ensures a * p <= b * p
  {
    assert b * p == a * p + (b - a) * p;
  }

  lemma ShiftFits(n: nat, s: nat)
    requires 0 < n < 0x4000_0000 && s > 0 && Pow2(s - 1) <= n
    ensures s <= 30 && Pow2(s) <= 2 * n
  {
    LargePowers();
    if s > 30 {
      PowGrows(30, s - 1);
    }
  }

  /** g_hash_table_set_shift_from_size: the smallest power of two above `n`, but at least eight. */
  method SetShiftFromSize(n: nat) returns (s: nat, size: nat, mod: nat, mask: nat)
    requires n < 0x4000_0000
    ensures HASH_TABLE_MIN_SHIFT <= s <= 30 && size == Pow2(s) && mod == PRIME_MOD[s] && mask + 1 == size
    ensures n < size && (size == 8 || size <= 2 * n)
  {
    s := FindClosestShift(n);
    if n > 0 {
      ShiftFits(n, s);
    }
    SmallPowers();
    if s < HASH_TABLE_MIN_SHIFT {
      PowGrows(s, HASH_TABLE_MIN_SHIFT);
      s := HASH_TABLE_MIN_SHIFT;
    }
    size, mod, mask := SetShift(s);
  }

  // No live slots, no entries.
  lemma NoNodes<P>(f: Keying<P>, t: Slots<P>, m: map<P, P>)
    requires Shape(t) && Maps(t, m) && Count(t.h, 2) == 0
    ensures m == map[]
  {
    if x :| x in m {
      assert Stores(t, x);
      var i: nat :| i < |t.h| && Real(t.h[i]) && t.k[i] == x;
      CountOne(t.h, i, 2);
    }
  }

  lemma {:induction false} CountOne(h: seq<nat>, i: nat, lo: nat)
    requires i < |h| && h[i] >= lo
    ensures Count(h, lo) > 0
    decreases |h|
  {
    if i < |h| - 1 {
      CountOne(h[..|h| - 1], i, lo);
    }
  }

  ghost function Objects<P>(k: array<P>, h: array<nat>, v: array<P>): set<object> {
    {k as object} + {h as object} + {v as object}
  }

  class GHashTable<P(==, !new)> {
    const f: Keying<P>
    const nil: P

    var size: nat
    var mod: nat
    var mask: nat
    var nnodes: nat
    var noccupied: nat
    var keys: array<P>
    var hashes: array<nat>
    var values: array<P>

    ghost var shift: nat
    ghost var contents: map<P, P>

    // The arrays fit the size fields; `keys` and `values` may be one array.
    ghost predicate Wired()
      reads this
    {
      && HASH_TABLE_MIN_SHIFT <= shift <= 30
      && size == Pow2(shift) && mod == PRIME_MOD[shift] && mask + 1 == size
      && keys.Length == hashes.Length == values.Length == size
      && keys as object != hashes as object && values as object != hashes as object
    }

    ghost function View(): Slots<P>
      reads this, keys, hashes, values
    {
      Slots(hashes[..], keys[..], values[..], shift, mod)
    }

    // The slots stand for the map `contents` and are counted; the table may be full.
    ghost predicate Loose()
      reads this, keys, hashes, values
    {
      Wired() && Sound(f) && Stands(f, View(), contents, nnodes, noccupied) && nnodes < MAX_NODES
    }

    ghost predicate Valid()
      reads this, keys, hashes, values
    {
      Loose() && noccupied < size
    }

    // What g_hash_table_maybe_resize looks for is not the case.
    ghost predicate Settled()
      reads this
    {
      (size <= nnodes * 4 || size == 8) && size > noccupied + noccupied / 16
    }

    /** g_hash_table_new_full: an empty table of eight slots, with one array for keys and values. */
    constructor (f: Keying<P>, nil: P)
      requires Sound(f)
      ensures Valid() && Settled() && contents == map[] && this.f == f && keys == values
      ensures fresh(keys) && fresh(hashes)
    {
      this.f, this.nil := f, nil;
      size, mod, mask := 8, 7, 7;
      nnodes, noccupied := 0, 0;
      var k := new P[8](_ => nil);
      keys, values := k, k;
      hashes := new nat[8](_ => UNUSED);
      shift, contents := HASH_TABLE_MIN_SHIFT, map[];
      new;
      SmallPowers();
      CountZero(hashes[..], 1);
      CountZero(hashes[..], 2);
    }

    /** g_hash_table_lookup_node: the slot of the key, or else the first free slot that a search for it passes. */
    method LookupNode(key: P) returns (i: nat, x: nat)
      requires Valid()
      ensures i < size && x == HashOf(f, key)
      ensures Real(hashes[i]) ==> f.same(keys[i], key) && hashes[i] == x
      ensures !Real(hashes[i]) ==> Absent(f, View(), key) && FirstFree(View(), x, i)
    {
      ghost var t := View();
      x := HashOf(f, key);
      ModFits(shift);
      ghost var last := SearchStarts(f, t, key);
      var firstTombstone, haveTombstone, step := 0, false, 0;
      i := x % mod;
      while hashes[i] != UNUSED
        invariant i < size && Searching(f, t, key, step, i, last, haveTombstone, firstTombstone)
        decreases last - step
      {
        if hashes[i] == x && f.same(keys[i], key) {
          return;
        }
        SearchNext(f, t, key, step, i, last, haveTombstone, firstTombstone);
        if hashes[i] == TOMBSTONE && !haveTombstone {
          firstTombstone, haveTombstone := i, true;
        }
        step := step + 1;
        assert mask + 1 == |t.h|;
        i := (i + step) % (mask + 1);
      }
      SearchDone(f, t, key, step, i, last, haveTombstone, firstTombstone);
      if haveTombstone {
        i := firstTombstone;
      }
    }

    /** g_hash_table_remove_node: a tombstone replaces the entry. */
    method RemoveNode(i: nat)
      requires Valid() && i < size && Real(hashes[i])
      modifies `nnodes, `contents, keys, hashes, values
      ensures Valid() && contents == old(contents - {keys[i]}) && nnodes + 1 == old(nnodes)
      ensures hashes[..] == old(hashes[..])[i := TOMBSTONE]
      ensures View() == Put(old(View()), i, TOMBSTONE, nil, nil)
    {
      ghost var t := View();
      CountUpdate(t.h, i, TOMBSTONE, 1);
      CountUpdate(t.h, i, TOMBSTONE, 2);
      PutTombstone(f, t, contents, i, nil);
      contents := contents - {keys[i]};
      hashes[i] := TOMBSTONE;
      keys[i] := nil;
      values[i] := nil;
      nnodes := nnodes - 1;
      assert View() == Put(t, i, TOMBSTONE, nil, nil);
    }

    // The three steps of g_hash_table_insert_node that write a slot: the key, the split, the value.
    method WriteSlot(i: nat, x: nat, key: P, value: P, keepNewKey: bool) returns (oldHash: nat)
      requires Wired() && i < size
      modifies `values, keys, hashes, values
      ensures Wired() && oldHash == old(hashes[i])
      ensures values == old(values) || fresh(values)
      ensures View() == Written(old(View()), i, x, key, value, keepNewKey)
    {
      oldHash := hashes[i];
      if Real(oldHash) {
        if keepNewKey {
          keys[i] := key;
        }
      } else {
        hashes[i] := x;
        keys[i] := key;
      }
      if keys == values && keys[i] != value {
        var copy := new P[size](q requires 0 <= q < keys.Length reads this, keys => keys[q]);
        values := copy;
      }
      values[i] := value;
    }

    // The inner loop of g_hash_table_resize: the first unused slot for hash `x` in the new table `t`.
    static method FreeSlot(h: array<nat>, x: nat, mod: nat, mask: nat, ghost t: Slots<P>) returns (i: nat)
      requires Shape(t) && t.h == h[..] && t.mod == mod && mask + 1 == |t.h| && Count(t.h, 1) < |t.h|
      ensures i < h.Length && h[i] == UNUSED && Found(t, x, i)
    {
      ghost var last := SearchEnds(t, x);
      SearchMoves(t, x, 0);
      var step := 0;
      i := x % mod;
      while h[i] != UNUSED
        invariant step <= last && i == Spot(t, x, step) && i < h.Length && Busy(t, x, step)
        decreases last - step
      {
        assert step != last;
        SearchMoves(t, x, step);
        step := step + 1;
        i := (i + step) % (mask + 1);
      }
      assert LeadsTo(t, x, i, step);
    }

    // Fresh, cleared arrays; one for keys and values if they were shared.
    method NewStorage(n: nat, shared: bool) returns (k: array<P>, h: array<nat>, v: array<P>)
      ensures fresh(k) && fresh(h) && fresh(v) && (k == v <==> shared)
      ensures k.Length == h.Length == v.Length == n && k as object != h as object && v as object != h as object
      ensures forall q | 0 <= q < n :: h[q] == UNUSED
    {
      k := new P[n](_ => nil);
      v := k;
      if !shared {
        v := new P[n](_ => nil);
      }
      h := new nat[n](_ => UNUSED);
    }

    // The new arrays hold the live entries of the slots `t` below `i`.
    ghost predicate Moving(t: Slots<P>, k: array<P>, h: array<nat>, v: array<P>, s: nat, m: nat, i: nat)
      reads k, h, v
    {
      match t
      case Slots(hashes, _, _, _, _) => Shape(t) && i <= |hashes| && Rehashed(f, t, Slots(h[..], k[..], v[..], s, m), i)
    }

    // One turn of the loop of g_hash_table_resize.
    method MoveEntry(i: nat, k: array<P>, h: array<nat>, v: array<P>, s: nat, m: nat, mask: nat)
      requires Loose() && i < size && Real(hashes[i])
      requires k.Length == h.Length == v.Length == Pow2(s) == mask + 1 && 0 < m <= Pow2(s) && nnodes < Pow2(s)
      requires k as object != h as object && v as object != h as object && Objects(k, h, v) !! Objects(keys, hashes, values)
      requires k == v <==> keys == values
      requires Moving(View(), k, h, v, s, m, i)
      modifies k, h, v
      ensures Moving(View(), k, h, v, s, m, i + 1)
    {
      ghost var t, t' := View(), Slots(h[..], k[..], v[..], s, m);
      CountPrefix(t.h, i, 2);
      var slot := FreeSlot(h, hashes[i], m, mask, t');
      RehashOne(f, t, t', i, slot);
      h[slot] := hashes[i];
      k[slot] := keys[i];
      v[slot] := values[i];
      assert Slots(h[..], k[..], v[..], s, m) == Put(t', slot, t.h[i], t.k[i], t.v[i]);
    }

    // The loop of g_hash_table_resize.
    method MoveAll(k: array<P>, h: array<nat>, v: array<P>, s: nat, m: nat, mask: nat)
      requires Loose() && (forall q | 0 <= q < h.Length :: h[q] == UNUSED)
      requires k.Length == h.Length == v.Length == Pow2(s) == mask + 1 && 0 < m <= Pow2(s) && nnodes < Pow2(s)
      requires k as object != h as object && v as object != h as object && Objects(k, h, v) !! Objects(keys, hashes, values)
      requires k == v <==> keys == values
      modifies k, h, v
      ensures var t := Slots(h[..], k[..], v[..], s, m);
              Ok(f, t) && Maps(t, contents) && Count(t.h, 1) == Count(t.h, 2) == nnodes
    {
      ghost var t := View();
      EmptyRehashed(f, t, Slots(h[..], k[..], v[..], s, m));
      for i := 0 to size
        invariant View() == t && Moving(t, k, h, v, s, m, i)
      {
        if Real(hashes[i]) {
          MoveEntry(i, k, h, v, s, m, mask);
        } else {
          RehashNone(f, t, Slots(h[..], k[..], v[..], s, m), i);
        }
      }
      assert t.h[..size] == t.h;
      PrefixFull(t, contents);
    }

    // The end of g_hash_table_resize: the new arrays take over.
    method Install(k: array<P>, h: array<nat>, v: array<P>, s: nat, n: nat, m: nat, msk: nat)
      requires HASH_TABLE_MIN_SHIFT <= s <= 30 && n == Pow2(s) && m == PRIME_MOD[s] && msk + 1 == n
      requires k.Length == h.Length == v.Length == n && k as object != h as object && v as object != h as object
      requires Sound(f) && nnodes < MAX_NODES && nnodes < n
      requires var t := Slots(h[..], k[..], v[..], s, m);
               Ok(f, t) && Maps(t, contents) && Count(t.h, 1) == Count(t.h, 2) == nnodes
      modifies this
      ensures Valid() && contents == old(contents) && nnodes == old(nnodes) && noccupied == nnodes
      ensures size == n && keys == k && hashes == h && values == v
    {
      size, mod, mask, shift := n, m, msk, s;
      keys, values, hashes := k, v, h;
      noccupied := nnodes;
    }

    /** g_hash_table_resize: a table for twice the nodes, without tombstones, standing for the same map. */
    method Resize()
      requires Loose()
      modifies this
      ensures Valid() && Settled() && contents == old(contents) && nnodes == old(nnodes) && noccupied == nnodes
      ensures fresh(keys) && fresh(hashes) && fresh(values) && (keys == values <==> old(keys == values))
    {
      var s, newSize, newMod, newMask := SetShiftFromSize(nnodes * 2);
      ModFits(s);
      var newKeys, newHashes, newValues := NewStorage(newSize, keys == values);
      MoveAll(newKeys, newHashes, newValues, s, newMod, newMask);
      Install(newKeys, newHashes, newValues, s, newSize, newMod, newMask);
    }

    /** g_hash_table_maybe_resize: afterwards its own test is false, so that the size is eight or at most four
        times the nodes, and slots are left unused. */
    method MaybeResize()
      requires Loose()
      modifies this
      ensures Valid() && Settled() && contents == old(contents) && nnodes == old(nnodes)
      ensures keys == values <==> old(keys == values)
      ensures (keys == old(keys) && hashes == old(hashes) && values == old(values)) || (fresh(keys) && fresh(hashes) && fresh(values))
    {
      if (size > nnodes * 4 && size > 8) || size <= noccupied + noccupied / 16 {
        Resize();
      }
    }

    // The map after inserting: a new key is added; of an equal key the value changes, and the key too if asked for.
    ghost predicate Inserted(m: map<P, P>, m': map<P, P>, key: P, value: P, keepNewKey: bool, isNew: bool) {
      if isNew then (forall x | x in m :: !f.same(x, key)) && m' == m[key := value]
      else exists x | x in m :: f.same(x, key) && m' == (if keepNewKey then (m - {x})[key := value] else m[x := value])
    }

    // g_hash_table_insert_node on a free slot.
    method InsertNew(i: nat, x: nat, key: P, value: P, keepNewKey: bool)
      requires Valid() && nnodes + 1 < MAX_NODES && i < size && !Real(hashes[i]) && x == HashOf(f, key)
      requires Absent(f, View(), key) && Found(View(), x, i)
      modifies this, keys, hashes, values
      ensures Valid() && contents == old(contents)[key := value] && nnodes == old(nnodes) + 1
      ensures old(Settled()) ==> Settled()
    {
      ghost var t := View();
      PutNew(f, t, contents, i, key, value);
      CountUpdate(t.h, i, x, 1);
      CountUpdate(t.h, i, x, 2);
      var oldHash := WriteSlot(i, x, key, value, keepNewKey);
      contents := contents[key := value];
      nnodes := nnodes + 1;
      if oldHash == UNUSED {
        noccupied := noccupied + 1;
        MaybeResize();
      }
    }

    // g_hash_table_insert_node on the slot of an equal key.
    method InsertOver(i: nat, x: nat, key: P, value: P, keepNewKey: bool)
      requires Valid() && i < size && Real(hashes[i]) && f.same(keys[i], key)
      modifies this, keys, hashes, values
      ensures Valid() && nnodes == old(nnodes)
      ensures contents == if keepNewKey then (old(contents) - {old(keys[i])})[key := value] else old(contents)[old(keys[i]) := value]
      ensures old(Settled()) ==> Settled()
    {
      ghost var t := View();
      ghost var m := contents;
      PutEither(f, t, m, nnodes, noccupied, i, x, key, value, keepNewKey);
      var oldHash := WriteSlot(i, x, key, value, keepNewKey);
      contents := if keepNewKey then (m - {t.k[i]})[key := value] else m[t.k[i] := value];
    }

    /** g_hash_table_insert (keepNewKey false), g_hash_table_replace (true) and g_hash_table_add (value is key). */
    method Insert(key: P, value: P, keepNewKey: bool) returns (isNew: bool)
      requires Valid() && nnodes + 1 < MAX_NODES
      modifies this, keys, hashes, values
      ensures Valid() && Inserted(old(contents), contents, key, value, keepNewKey, isNew)
      ensures nnodes == if isNew then old(nnodes) + 1 else old(nnodes)
      ensures old(Settled()) ==> Settled()
    {
      var i, x := LookupNode(key);
      AbsentIsNotMapped(f, View(), contents, key);
      isNew := !Real(hashes[i]);
      if isNew {
        InsertNew(i, x, key, value, keepNewKey);
      } else {
        assert View().k[i] in contents;
        InsertOver(i, x, key, value, keepNewKey);
      }
    }

    /** g_hash_table_lookup_extended: finds the entry whose key equals the given one, if there is one. */
    method LookupExtended(key: P) returns (found: bool, origKey: P, value: P)
      requires Valid()
      ensures found <==> exists x | x in contents :: f.same(x, key)
      ensures found ==> origKey in contents && f.same(origKey, key) && value == contents[origKey]
    {
      var i, x := LookupNode(key);
      AbsentIsNotMapped(f, View(), contents, key);
      found, origKey, value := Real(hashes[i]), keys[i], values[i];
      assert found ==> View().k[i] in contents;
    }

    /** g_hash_table_remove: takes the entry out, if there is one. */
    method Remove(key: P) returns (removed: bool)
      requires Valid()
      modifies this, keys, hashes, values
      ensures Valid() && (removed <==> exists x | x in old(contents) :: f.same(x, key))
      ensures if removed then exists x | x in old(contents) :: f.same(x, key) && contents == old(contents) - {x}
              else contents == old(contents)
      ensures removed ==> Settled()
    {
      var i, x := LookupNode(key);
      AbsentIsNotMapped(f, View(), contents, key);
      removed := Real(hashes[i]);
      if removed {
        assert View().k[i] in contents;
        RemoveNode(i);
        MaybeResize();
      }
    }

    // Clears the arrays in place.
    method Clear()
      requires Wired() && Sound(f)
      modifies `nnodes, `noccupied, `contents, keys, hashes, values
      ensures Valid() && contents == map[] && nnodes == 0
    {
      for i := 0 to size
        invariant forall q | 0 <= q < i :: hashes[q] == UNUSED
      {
        hashes[i] := UNUSED;
        keys[i] := nil;
        values[i] := nil;
      }
      nnodes, noccupied, contents := 0, 0, map[];
      ModFits(shift);
      EmptyStands(f, View());
    }

    // Starts over with the smallest table, so that destroy functions may use the old storage.
    method StartOver()
      requires Sound(f)
      modifies this
      ensures Valid() && contents == map[] && nnodes == 0 && keys == values
      ensures fresh(keys) && fresh(hashes)
    {
      var n, m, msk := SetShift(HASH_TABLE_MIN_SHIFT);
      var k, h, v := NewStorage(n, true);
      ModFits(HASH_TABLE_MIN_SHIFT);
      nnodes, contents := 0, map[];
      EmptyStands(f, Slots(h[..], k[..], v[..], HASH_TABLE_MIN_SHIFT, m));
      Install(k, h, v, HASH_TABLE_MIN_SHIFT, n, m, msk);
    }

    /** g_hash_table_remove_all and g_hash_table_steal_all; `destroys` tells whether destroy functions are to run. */
    method RemoveAll(destroys: bool)
      requires Valid()
      modifies this, keys, hashes, values
      ensures Valid() && Settled() && contents == map[] && nnodes == 0
    {
      if nnodes != 0 {
        if destroys {
          StartOver();
        } else {
          Clear();
        }
      } else {
        NoNodes(f, View(), contents);
      }
      MaybeResize();
    }

    // The table on the way from the slots `t` and the map `m`, with the entries below `i` tested.
    ghost predicate Swept(t: Slots<P>, m: map<P, P>, test: (P, P) -> bool, i: nat)
      reads this, keys, hashes, values
    {
      match t
      case Slots(h, _, _, _, _) =>
        Valid() && |h| == size && i <= size && Shape(t) && SameFrom(t, View(), i) && contents == m - Chosen(t, test, i)
    }

    // One turn of the loop of g_hash_table_foreach_remove_or_steal.
    method RemoveIf(i: nat, test: (P, P) -> bool, deleted: nat, ghost t: Slots<P>, ghost m: map<P, P>) returns (count: nat)
      requires Swept(t, m, test, i) && i < size
      modifies `nnodes, `contents, keys, hashes, values
      ensures Swept(t, m, test, i + 1)
      ensures count + nnodes == deleted + old(nnodes)
    {
      SameMeans(t, View(), i);
      count := deleted;
      if Real(hashes[i]) && test(keys[i], values[i]) {
        SamePut(t, View(), i, nil);
        RemoveNode(i);
        count := deleted + 1;
      }
    }

    lemma SameMeans(t: Slots<P>, t': Slots<P>, i: nat)
      requires SameFrom(t, t', i) && i < |t.h|
      ensures t'.h[i] == t.h[i] && t'.k[i] == t.k[i] && t'.v[i] == t.v[i] && SameFrom(t, t', i + 1)
    {
      assert t'.h[i] == t'.h[i..][0] && t'.k[i] == t'.k[i..][0] && t'.v[i] == t'.v[i..][0];
      assert t'.h[i + 1..] == t'.h[i..][1..] && t'.k[i + 1..] == t'.k[i..][1..] && t'.v[i + 1..] == t'.v[i..][1..];
      assert t.h[i + 1..] == t.h[i..][1..] && t.k[i + 1..] == t.k[i..][1..] && t.v[i + 1..] == t.v[i..][1..];
    }

    lemma SamePut(t: Slots<P>, t': Slots<P>, i: nat, x: P)
      requires SameFrom(t, t', i) && i < |t.h|
      ensures SameFrom(t, Put(t', i, TOMBSTONE, x, x), i + 1)
    {
      SameMeans(t, t', i);
      var p := Put(t', i, TOMBSTONE, x, x);
      assert p.h[i + 1..] == t'.h[i + 1..] && p.k[i + 1..] == t'.k[i + 1..] && p.v[i + 1..] == t'.v[i + 1..];
    }

    // The loop of g_hash_table_foreach_remove_or_steal.
    method RemoveWhere(test: (P, P) -> bool) returns (deleted: nat)
      requires Valid()
      modifies `nnodes, `contents, keys, hashes, values
      ensures Valid() && deleted + nnodes == old(nnodes) && contents == old(contents - Chosen(View(), test, size))
    {
      ghost var t, m := View(), contents;
      deleted := 0;
      for i := 0 to size
        invariant Swept(t, m, test, i) && deleted + nnodes == old(nnodes)
      {
        deleted := RemoveIf(i, test, deleted, t, m);
      }
    }

    /** g_hash_table_foreach_remove: exactly the entries that pass the test go. */
    method ForeachRemove(test: (P, P) -> bool) returns (deleted: nat)
      requires Valid()
      modifies this, keys, hashes, values
      ensures Valid() && Settled() && deleted + nnodes == old(nnodes)
      ensures contents == map x | x in old(contents) && !test(x, old(contents)[x]) :: old(contents)[x]
    {
      ChosenAll(View(), contents, test);
      deleted := RemoveWhere(test);
      MaybeResize();
    }

    // The slots from `i` on are those of `t`.
    ghost predicate SameFrom(t: Slots<P>, t': Slots<P>, i: nat) {
      && |t'.h| == |t.h| && |t'.k| == |t.k| && |t'.v| == |t.v| && i <= |t.h| == |t.k| == |t.v|
      && t'.h[i..] == t.h[i..] && t'.k[i..] == t.k[i..] && t'.v[i..] == t.v[i..]
    }

    /** g_hash_table_iter_next: the next live entry in slot order. */
    method IterNext(position: int) returns (more: bool, next: nat, key: P, value: P)
      requires Valid() && -1 <= position < size
      ensures position < next <= size && (forall q | position < q < next :: !Real(hashes[q]))
      ensures more <==> next < size
      ensures more ==> Real(hashes[next]) && key == keys[next] && key in contents && value == contents[key]
    {
      key, value := nil, nil;
      next := position + 1;
      while next < size && !Real(hashes[next])
        invariant position < next <= size && forall q | position < q < next :: !Real(hashes[q])
      {
        next := next + 1;
      }
      more := next < size;
      if more {
        key, value := keys[next], values[next];
        assert View().k[next] in contents;
      }
    }

    /** g_hash_table_iter_remove: takes the entry out and leaves every slot still to be visited alone. */
    method IterRemove(position: nat)
      requires Valid() && position < size && Real(hashes[position])
      modifies `nnodes, `contents, keys, hashes, values
      ensures Valid() && contents == old(contents - {keys[position]})
      ensures SameFrom(old(View()), View(), position + 1)
    {
      RemoveNode(position);
    }
  }
}
