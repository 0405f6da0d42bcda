/**
 * kmap_high and kunmap_high: persistent mappings of high memory pages, their use counts and the deferred
 * flush of cached translations.  Each method is one critical section under kmap_lock.
 */
module Pkmap {
  import opened Lists
  import opened PkmapSlots

  class KmapTable {
    const hash: Hash

    var pkmapCount: array<nat>
    var pageTable: array<Entry>
    var pamPage: array<Page>
    var buckets: array<seq<nat>>
    var lastNr: nat

    // Whether somebody sleeps on pkmap_map_wait.
    var waiting: bool

    // Mappings handed out and not yet given back, per page; translations that processors may hold.
    ghost var users: map<Page, nat>
    ghost var tlb: set<(nat, Page)>

    ghost function View(): Kmaps
      reads this, pkmapCount, pageTable, pamPage, buckets
    {
      Kmaps(pkmapCount[..], pageTable[..], pamPage[..], buckets[..])
    }

    ghost predicate Wired()
      reads this
    {
      && pkmapCount.Length > 0 && lastNr < pkmapCount.Length
      && pkmapCount as object != pamPage as object
    }

    ghost predicate Good()
      reads this, pkmapCount, pageTable, pamPage, buckets
    {
      Wired() && Ok(View(), hash) && Counted(View(), users)
    }

    ghost predicate AllBusy()
      reads this, pkmapCount
    {
      forall i | 0 <= i < pkmapCount.Length :: pkmapCount[i] >= 2
    }

    // What holds whenever the lock is free.
    ghost predicate Valid()
      reads this, pkmapCount, pageTable, pamPage, buckets
    {
      Good() && Coherent(View(), tlb) && (waiting ==> AllBusy())
    }

    // LAST_PKMAP is 512 or 1024.
    constructor (hash: Hash, last: nat)
      requires HashOk(hash) && last > 0
      ensures Valid() && pkmapCount.Length == last && users == map[] && tlb == {} && !waiting
    {
      this.hash := hash;
      pkmapCount := new nat[last](_ => 0);
      pageTable := new Entry[last](_ => None);
      pamPage := new Page[last](_ => 0);
      buckets := new seq<nat>[PA_HASH_SIZE](_ => []);
      lastNr, waiting, users, tlb := 0, false, map[], {};
    }

    // A processor looks up a slot that is mapped and may remember the translation.
    ghost method Translate(i: nat)
      requires Valid() && i < pkmapCount.Length && pageTable[i].Some?
      modifies `tlb
      ensures Valid() && tlb == old(tlb) + {(i, pageTable[i].page)}
    {
      tlb := tlb + {(i, pageTable[i].page)};
    }

    /** page_address: the slot that maps the page, if one does. */
    method PageAddress(page: Page) returns (found: bool, i: nat)
      requires Good()
      ensures found ==> i < pkmapCount.Length && pageTable[i] == Some(page)
      ensures found <==> Mapped(View(), page)
    {
      ghost var k := View();
      var list := buckets[hash(page)];
      for q := 0 to |list|
        invariant forall a | 0 <= a < q :: list[a] < pamPage.Length && pamPage[list[a]] != page
      {
        assert BucketOk(k, hash, hash(page));
        i := list[q];
        assert i in k.bucket[hash(page)];
        if pamPage[i] == page {
          ListTells(k, hash, page, i);
          return true, i;
        }
      }
      forall j: nat | j < |k.count| ensures k.pte[j] != Some(page) {
        ListTells(k, hash, page, j);
      }
      return false, 0;
    }

    // set_page_address(page, NULL): takes the entry of the page off its hash list.
    method ForgetAddress(page: Page, ghost i: nat)
      requires Good() && i < pkmapCount.Length && pageTable[i] == Some(page)
      modifies buckets
      ensures buckets[..] == old(buckets[..])[hash(page) := Without(old(buckets[hash(page)]), i)]
    {
      var list := buckets[hash(page)];
      ghost var k := View();
      ListTells(k, hash, page, i);
      for q := 0 to |list|
        invariant buckets[..] == k.bucket && i in list[q..]
      {
        assert BucketOk(k, hash, hash(page));
        var x := list[q];
        assert x in k.bucket[hash(page)];
        if pamPage[x] == page {
          ListTells(k, hash, page, x);
          assert PairOk(k, x, i);
          WithoutAt(list, q);
          buckets[hash(page)] := list[..q] + list[q + 1..];
          return;
        }
        ListTells(k, hash, page, x);
        assert list[q..][1..] == list[q + 1..];
      }
    }

    // The body of the loop of flush_all_zero_pkmaps, on a slot without users.
    method FreeOne(i: nat)
      requires Good() && i < pkmapCount.Length && pkmapCount[i] == 1
      modifies pkmapCount, pageTable, buckets
      ensures Good() && pkmapCount[..] == old(pkmapCount[..])[i := 0] && pageTable[..] == old(pageTable[..])[i := None]
    {
      ghost var k := View();
      CountedFree(k, hash, users, i);
      FreeSlotOk(k, hash, i);
      var page := pageTable[i].page;
      ForgetAddress(page, i);
      pkmapCount[i] := 0;
      pageTable[i] := None;
      assert View() == FreeSlot(k, hash, i);
    }

    // The counts and entries after slots below `n` without users have been freed.
    static ghost predicate Flushed(k: Kmaps, c: Kmaps, n: nat) {
      && |c.count| == |c.pte| == |k.count| == |k.pte| && n <= |k.count|
      && (forall j | 0 <= j < n && k.count[j] == 1 :: c.count[j] == 0 && c.pte[j] == None)
      && (forall j | 0 <= j < |k.count| && !(j < n && k.count[j] == 1) :: c.count[j] == k.count[j] && c.pte[j] == k.pte[j])
    }

    /** flush_all_zero_pkmaps: slots without users become usable, and translations are dropped if there were any. */
    method FlushAllZeroPkmaps()
      requires Good() && Coherent(View(), tlb)
      modifies pkmapCount, pageTable, buckets, `tlb
      ensures Good() && Coherent(View(), tlb) && Flushed(old(View()), View(), pkmapCount.Length)
    {
      ghost var k := View();
      var needFlush := false;
      for i := 0 to pkmapCount.Length
        invariant Good() && Flushed(k, View(), i) && (!needFlush ==> pageTable[..] == k.pte) && tlb == old(tlb)
      {
        if pkmapCount[i] == 1 {
          FreeOne(i);
          needFlush := true;
        }
      }
      if needFlush {
        tlb := {};
      }
    }

    /** kmap_flush_unused. */
    method KmapFlushUnused()
      requires Valid()
      modifies pkmapCount, pageTable, buckets, `tlb
      ensures Valid() && Flushed(old(View()), View(), pkmapCount.Length)
    {
      FlushAllZeroPkmaps();
    }

    // The slots up to and including `n` have users, and no slot waits for a flush.
    static ghost predicate Searched(c: Kmaps, n: nat) {
      && (forall j | 0 <= j <= n < |c.count| :: c.count[j] >= 2)
      && (forall j | 0 <= j < |c.count| :: c.count[j] != 1)
    }

    // Moves on by one slot, and flushes when the table has been gone around.
    method Advance() returns (flushed: bool)
      requires Good() && Coherent(View(), tlb)
      modifies pkmapCount, pageTable, buckets, `tlb, `lastNr
      ensures Good() && Coherent(View(), tlb) && flushed == (old(lastNr) + 1 == pkmapCount.Length)
      ensures lastNr == if flushed then 0 else old(lastNr) + 1
      ensures if flushed then Flushed(old(View()), View(), pkmapCount.Length) else View() == old(View())
    {
      lastNr := NextNr(lastNr, pkmapCount.Length);
      flushed := lastNr == 0;
      if flushed {
        FlushAllZeroPkmaps();
      }
    }

    // The search of map_new_virtual, up to the point where it has an entry or has to sleep.
    method FindEntry() returns (found: bool)
      requires Good() && Coherent(View(), tlb)
      modifies pkmapCount, pageTable, buckets, `tlb, `lastNr
      ensures Good() && Coherent(View(), tlb)
      ensures found ==> pkmapCount[lastNr] == 0
      ensures !found ==> AllBusy()
      ensures Flushed(old(View()), View(), pkmapCount.Length) || (found && View() == old(View()))
    {
      var n := pkmapCount.Length;
      var count := n;
      ghost var first, wrapped, k := lastNr, false, View();
      ghost var now := k;
      while true
        invariant Good() && Coherent(View(), tlb) && count > 0 && n == pkmapCount.Length && View() == now
        invariant !wrapped ==> first <= lastNr && count == n - (lastNr - first) && now == k
        invariant wrapped ==> Searched(now, lastNr) && count == n - 1 - lastNr && Flushed(k, now, n)
        decreases if wrapped then 0 else 1, n - lastNr
      {
        var flushed := Advance();
        if flushed {
          count := n;
          wrapped, now := true, View();
        }
        if pkmapCount[lastNr] == 0 {
          return true;
        }
        count := count - 1;
        if count == 0 {
          return false;
        }
      }
    }

    // The rest of map_new_virtual: the entry found gets the page, with no users yet.
    method FillEntry(page: Page)
      requires Good() && Coherent(View(), tlb) && pkmapCount[lastNr] == 0 && !Mapped(View(), page)
      modifies pkmapCount, pageTable, pamPage, buckets
      ensures Good() && Coherent(View(), tlb) && View() == MapSlot(old(View()), hash, lastNr, page)
    {
      ghost var k := View();
      MapSlotOk(k, hash, lastNr, page);
      CountedMap(k, hash, users, lastNr, page);
      CoherentMap(k, hash, tlb, lastNr, page);
      pageTable[lastNr] := Some(page);
      pkmapCount[lastNr] := 1;
      pamPage[lastNr] := page;
      buckets[hash(page)] := buckets[hash(page)] + [lastNr];
      assert View() == MapSlot(k, hash, lastNr, page);
    }

    /** map_new_virtual, until it has an entry or sleeps: it gives up only when every slot has a user. */
    method MapNewVirtual(page: Page) returns (found: bool, i: nat)
      requires Good() && Coherent(View(), tlb) && !Mapped(View(), page)
      modifies pkmapCount, pageTable, pamPage, buckets, `tlb, `lastNr
      ensures Good() && Coherent(View(), tlb) && (!found ==> AllBusy())
      ensures found ==> i < pkmapCount.Length && pageTable[i] == Some(page) && pkmapCount[i] == 1
      ensures found <==> !old(AllBusy())
    {
      found := FindEntry();
      i := lastNr;
      if found {
        FillEntry(page);
      }
    }

    // One user more or less of a mapped slot.
    method Recount(i: nat, c: nat)
      requires Good() && Coherent(View(), tlb) && i < pkmapCount.Length && pageTable[i].Some? && c > 0
      modifies pkmapCount, `users
      ensures Good() && Coherent(View(), tlb) && pkmapCount[..] == old(pkmapCount[..])[i := c]
      ensures users == old(users)[pageTable[i].page := c - 1]
    {
      ghost var k, page := View(), pageTable[i].page;
      assert SlotOk(k, hash, i);
      SetCountOk(k, hash, i, c);
      CountedUse(k, hash, users, i, c, page);
      pkmapCount[i] := c;
      users := users[page := c - 1];
      assert View() == SetCount(k, i, c);
    }

    /** kmap_high, until it returns or sleeps.  It sleeps only when every slot has a user; after the sleep it
        looks the page up again and searches again, which is another call. */
    method KmapHigh(page: Page) returns (mapped: bool, i: nat)
      requires Valid()
      modifies this, pkmapCount, pageTable, pamPage, buckets
      ensures Valid()
      ensures mapped ==> i < pkmapCount.Length && pageTable[i] == Some(page) && pkmapCount[i] >= 2
      ensures mapped ==> users == old(users)[page := Uses(old(users), page) + 1]
      ensures !mapped ==> AllBusy() && waiting && users == old(users)
      ensures mapped <==> old(Mapped(View(), page) || !AllBusy())
    {
      var found;
      found, i := PageAddress(page);
      if !found {
        found, i := MapNewVirtual(page);
        if !found {
          waiting := true;
          return false, 0;
        }
      }
      Recount(i, pkmapCount[i] + 1);
      return true, i;
    }

    /** kmap_high_get: one more user if the page is mapped. */
    method KmapHighGet(page: Page) returns (mapped: bool, i: nat)
      requires Valid()
      modifies pkmapCount, `users
      ensures Valid() && (mapped <==> Mapped(old(View()), page))
      ensures if mapped then i < pkmapCount.Length && pageTable[i] == Some(page) && users == old(users)[page := Uses(old(users), page) + 1]
              else users == old(users) && View() == old(View())
    {
      mapped, i := PageAddress(page);
      if mapped {
        Recount(i, pkmapCount[i] + 1);
      }
    }

    /** kunmap_high: one user less; the count never drops to zero, and sleepers are woken exactly when the slot
        has lost its last user. */
    method KunmapHigh(page: Page) returns (woke: bool)
      requires Valid() && Uses(users, page) > 0
      modifies pkmapCount, `users, `waiting
      ensures Valid() && users == old(users)[page := Uses(old(users), page) - 1]
      ensures woke <==> old(waiting) && Uses(users, page) == 0
      ensures waiting == (old(waiting) && !woke)
    {
      var found, i := PageAddress(page);
      Recount(i, pkmapCount[i] - 1);
      woke := pkmapCount[i] == 1 && waiting;
      if woke {
        waiting := false;
      }
    }
  }

  // One slot further, around the table.
  method NextNr(nr: nat, n: nat) returns (next: nat)
    requires nr < n
    ensures next == if nr + 1 == n then 0 else nr + 1
  {
    next := (nr + 1) % n;
  }
}
