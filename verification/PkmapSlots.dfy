/**
 * Persistent kernel mappings of high memory as values: use counts, page table entries and the hash lists
 * that lead from a page to its slot.
 */
module PkmapSlots {
  import opened Lists

  type Page = nat

  datatype Entry = None | Some(page: Page)

  // `owner` and `bucket` are page_address_maps and page_address_htable.
  datatype Kmaps = Kmaps(count: seq<nat>, pte: seq<Entry>, owner: seq<Page>, bucket: seq<seq<nat>>)

  const PA_HASH_SIZE: nat := 128

  predicate Shape(k: Kmaps) {
    |k.count| == |k.pte| == |k.owner| && |k.bucket| == PA_HASH_SIZE
  }

  // A page hash: hash_ptr(page, PA_HASH_ORDER).
  type Hash = Page -> nat

  ghost predicate HashOk(hash: Hash) {
    forall p: Page :: hash(p) < PA_HASH_SIZE
  }

  // A slot that is counted is mapped, and its page leads back to it.
  predicate SlotOk(k: Kmaps, hash: Hash, i: nat)
    requires Shape(k) && i < |k.count|
  {
    && (k.count[i] == 0 <==> k.pte[i] == None)
    && (k.pte[i].Some? ==> k.owner[i] == k.pte[i].page && hash(k.pte[i].page) < PA_HASH_SIZE
                           && i in k.bucket[hash(k.pte[i].page)])
  }

  predicate BucketOk(k: Kmaps, hash: Hash, b: nat)
    requires Shape(k) && b < PA_HASH_SIZE
  {
    && Distinct(k.bucket[b])
    && (forall x | x in k.bucket[b] :: x < |k.count| && k.pte[x].Some? && hash(k.pte[x].page) == b)
  }

  predicate PairOk(k: Kmaps, i: nat, j: nat)
    requires Shape(k) && i < |k.count| && j < |k.count|
  {
    i != j && k.pte[i].Some? ==> k.pte[i] != k.pte[j]
  }

  ghost predicate Ok(k: Kmaps, hash: Hash) {
    && Shape(k) && HashOk(hash)
    && (forall i: nat | i < |k.count| :: SlotOk(k, hash, i))
    && (forall b: nat | b < PA_HASH_SIZE :: BucketOk(k, hash, b))
    && (forall i: nat, j: nat | i < |k.count| && j < |k.count| :: PairOk(k, i, j))
  }

  ghost predicate Mapped(k: Kmaps, p: Page)
    requires Shape(k)
  {
    exists i: nat | i < |k.count| :: k.pte[i] == Some(p)
  }

  /// Changing a slot

  // A free slot gets a page.
  function MapSlot(k: Kmaps, hash: Hash, i: nat, p: Page): Kmaps
    requires Shape(k) && i < |k.count| && hash(p) < PA_HASH_SIZE
  {
    Kmaps(k.count[i := 1], k.pte[i := Some(p)], k.owner[i := p], k.bucket[hash(p) := k.bucket[hash(p)] + [i]])
  }

  lemma MapSlotOk(k: Kmaps, hash: Hash, i: nat, p: Page)
    requires Ok(k, hash) && i < |k.count| && k.count[i] == 0 && !Mapped(k, p)
    ensures Ok(MapSlot(k, hash, i, p), hash)
  {
    var k', h := MapSlot(k, hash, i, p), hash(p);
    assert SlotOk(k, hash, i);
    forall j: nat | j < |k.count| ensures SlotOk(k', hash, j) {
      assert SlotOk(k, hash, j);
    }
    forall b: nat | b < PA_HASH_SIZE ensures BucketOk(k', hash, b) {
      assert BucketOk(k, hash, b);
    }
    forall a: nat, b: nat | a < |k.count| && b < |k.count| ensures PairOk(k', a, b) {
      assert PairOk(k, a, b);
    }
  }

  // An unused slot is unmapped.
  function FreeSlot(k: Kmaps, hash: Hash, i: nat): Kmaps
    requires Shape(k) && i < |k.count| && k.pte[i].Some? && hash(k.pte[i].page) < PA_HASH_SIZE
  {
    var h := hash(k.pte[i].page);
    Kmaps(k.count[i := 0], k.pte[i := None], k.owner, k.bucket[h := Without(k.bucket[h], i)])
  }

  lemma FreeSlotOk(k: Kmaps, hash: Hash, i: nat)
    requires Ok(k, hash) && i < |k.count| && k.pte[i].Some?
    ensures Ok(FreeSlot(k, hash, i), hash)
  {
    var k', h := FreeSlot(k, hash, i), hash(k.pte[i].page);
    assert BucketOk(k, hash, h);
    WithoutDrops(k.bucket[h], i);
    forall j: nat | j < |k.count| ensures SlotOk(k', hash, j) {
      assert SlotOk(k, hash, j);
    }
    forall b: nat | b < PA_HASH_SIZE ensures BucketOk(k', hash, b) {
      assert BucketOk(k, hash, b);
    }
    forall a: nat, b: nat | a < |k.count| && b < |k.count| ensures PairOk(k', a, b) {
      assert PairOk(k, a, b);
    }
  }

  function SetCount(k: Kmaps, i: nat, c: nat): Kmaps
    requires i < |k.count|
  {
    k.(count := k.count[i := c])
  }

  lemma SetCountOk(k: Kmaps, hash: Hash, i: nat, c: nat)
    requires Ok(k, hash) && i < |k.count| && k.count[i] > 0 && c > 0
    ensures Ok(SetCount(k, i, c), hash)
  {
    var k' := SetCount(k, i, c);
    forall j: nat | j < |k.count| ensures SlotOk(k', hash, j) {
      assert SlotOk(k, hash, j);
    }
    forall b: nat | b < PA_HASH_SIZE ensures BucketOk(k', hash, b) {
      assert BucketOk(k, hash, b);
    }
    forall a: nat, b: nat | a < |k.count| && b < |k.count| ensures PairOk(k', a, b) {
      assert PairOk(k, a, b);
    }
  }

  /// Users

  function Uses(users: map<Page, nat>, p: Page): nat {
    if p in users then users[p] else 0
  }

  // The count of a mapped slot is one more than the users of its page; pages in use are mapped.
  ghost predicate Counted(k: Kmaps, users: map<Page, nat>)
    requires Shape(k)
  {
    && (forall i: nat | i < |k.count| :: k.pte[i].Some? ==> k.count[i] == Uses(users, k.pte[i].page) + 1)
    && (forall p: Page | Uses(users, p) > 0 :: Mapped(k, p))
  }

  lemma CountedMap(k: Kmaps, hash: Hash, users: map<Page, nat>, i: nat, p: Page)
    requires Ok(k, hash) && Counted(k, users) && i < |k.count| && k.count[i] == 0 && !Mapped(k, p)
    ensures Counted(MapSlot(k, hash, i, p), users)
  {
    var k' := MapSlot(k, hash, i, p);
    assert SlotOk(k, hash, i);
    forall q: Page | Uses(users, q) > 0 ensures Mapped(k', q) {
      var j: nat :| j < |k.count| && k.pte[j] == Some(q);
      assert k'.pte[j] == Some(q);
    }
  }

  lemma CountedFree(k: Kmaps, hash: Hash, users: map<Page, nat>, i: nat)
    requires Ok(k, hash) && Counted(k, users) && i < |k.count| && k.count[i] == 1
    ensures k.pte[i].Some? && Counted(FreeSlot(k, hash, i), users)
  {
    assert SlotOk(k, hash, i);
    var k' := FreeSlot(k, hash, i);
    forall q: Page | Uses(users, q) > 0 ensures Mapped(k', q) {
      var j: nat :| j < |k.count| && k.pte[j] == Some(q);
      assert k'.pte[j] == Some(q);
    }
  }

  lemma CountedUse(k: Kmaps, hash: Hash, users: map<Page, nat>, i: nat, c: nat, p: Page)
    requires Ok(k, hash) && Counted(k, users) && i < |k.count| && k.pte[i] == Some(p) && c > 0
    ensures Counted(SetCount(k, i, c), users[p := c - 1])
  {
    var k', users' := SetCount(k, i, c), users[p := c - 1];
    forall j: nat | j < |k.count| ensures k'.pte[j].Some? ==> k'.count[j] == Uses(users', k'.pte[j].page) + 1 {
      assert PairOk(k, i, j);
    }
    assert k'.pte[i] == Some(p);
    forall q: Page | Uses(users', q) > 0 ensures Mapped(k', q) {
      if q != p {
        assert Uses(users, q) > 0;
        var j: nat :| j < |k.count| && k.pte[j] == Some(q);
        assert k'.pte[j] == Some(q);
      }
    }
  }

  /// Cached translations

  // Every translation that a processor may still hold is the current one.
  ghost predicate Coherent(k: Kmaps, tlb: set<(nat, Page)>) {
    forall e | e in tlb :: e.0 < |k.pte| && k.pte[e.0] == Some(e.1)
  }

  /** So no stale translation exists for a slot in use, and none at all for a slot about to be reused. */
  lemma NoStaleTranslation(k: Kmaps, hash: Hash, tlb: set<(nat, Page)>, i: nat, p: Page)
    requires Ok(k, hash) && Coherent(k, tlb) && i < |k.count| && (i, p) in tlb
    ensures k.count[i] > 0 && k.pte[i] == Some(p)
  {
    assert SlotOk(k, hash, i);
  }

  lemma CoherentMap(k: Kmaps, hash: Hash, tlb: set<(nat, Page)>, i: nat, p: Page)
    requires Ok(k, hash) && Coherent(k, tlb) && i < |k.count| && k.count[i] == 0
    ensures Coherent(MapSlot(k, hash, i, p), tlb)
  {
    assert SlotOk(k, hash, i);
  }

  /// Finding a page

  // The slot of page `p`, if its hash list has one.
  lemma ListTells(k: Kmaps, hash: Hash, p: Page, i: nat)
    requires Ok(k, hash) && i < |k.count|
    ensures k.pte[i] == Some(p) <==> i in k.bucket[hash(p)] && k.owner[i] == p
  {
    assert SlotOk(k, hash, i);
    assert BucketOk(k, hash, hash(p));
  }
}
