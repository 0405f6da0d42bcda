/**
 * The DRM range allocator object: its node list, hole stack and scan state, and the operations that
 * change them.
 */
module DrmMm {
  import opened RangeList
  import opened RangeFit
  import opened EvictionScan

  const ULONG_MAX: int := 0xFFFF_FFFF_FFFF_FFFF

  // The value of a size as the unsigned long it is stored in; only the head node's is negative.
  function Unsigned(size: int): int {
    if size < 0 then size + ULONG_MAX + 1 else size
  }

  ghost predicate FitsAt(l: seq<Node>, x: Id, r: Request, adj: Adjust) {
    IndexOf(l, x) < |l| && Fits(l, IndexOf(l, x), r, adj)
  }

  ghost predicate NoneFits(l: seq<Node>, ids: seq<Id>, r: Request, adj: Adjust) {
    forall x | x in ids :: !FitsAt(l, x, r, adj)
  }

  // Node `i` owns the first hole on the stack that fits.
  ghost predicate FirstFit(m: Mm, i: nat, r: Request, adj: Adjust) {
    i < |m.list| && exists k | 0 <= k < |m.stack| :: m.stack[k] == m.list[i].id && NoneFits(m.list, m.stack[..k], r, adj)
  }

  lemma StackIsAll(m: Mm, s: int, n: int, r: Request, adj: Adjust)
    requires Ok(m, s, n)
    ensures NoneFits(m.list, m.stack, r, adj) ==> !SomeHoleFits(m.list, r, adj)
  {
    forall i: nat | i < |m.list| && m.list[i].holeFollows
      ensures m.list[i].id in m.stack && (FitsAt(m.list, m.list[i].id, r, adj) <==> Fits(m.list, i, r, adj))
    {
      HoleOnStack(m, s, n, i);
    }
  }

  // The owners of holes are on the list.
  lemma OwnerListed(m: Mm, s: int, n: int, x: Id)
    requires Ok(m, s, n) && x in m.stack
    ensures IndexOf(m.list, x) < |m.list| && m.list[IndexOf(m.list, x)].holeFollows
  {
    assert Owns(m.list, x);
    var i :| 0 <= i < |m.list| && m.list[i].id == x && m.list[i].holeFollows;
    IndexIs(m.list, i);
  }

  lemma HoleOnStack(m: Mm, s: int, n: int, i: nat)
    requires Ok(m, s, n) && i < |m.list| && m.list[i].holeFollows
    ensures m.list[i].id in m.stack && IndexOf(m.list, m.list[i].id) == i
  {
    assert Owns(m.list, m.list[i].id);
    IndexIs(m.list, i);
  }

  // Of the first `k` holes on the stack, those that fit follow nodes of at least the size `best`.
  ghost predicate NoneBetter(m: Mm, k: nat, r: Request, adj: Adjust, best: int)
    requires k <= |m.stack|
  {
    forall j | 0 <= j < k && FitsAt(m.list, m.stack[j], r, adj) :: best <= Unsigned(m.list[IndexOf(m.list, m.stack[j])].size)
  }

  lemma NoneBetterAnywhere(m: Mm, s: int, n: int, r: Request, adj: Adjust, best: int)
    requires Ok(m, s, n) && NoneBetter(m, |m.stack|, r, adj, best)
    ensures forall i | 0 <= i < |m.list| && m.list[i].holeFollows && Fits(m.list, i, r, adj) :: best <= Unsigned(m.list[i].size)
  {
    forall i | 0 <= i < |m.list| && m.list[i].holeFollows && Fits(m.list, i, r, adj)
      ensures best <= Unsigned(m.list[i].size)
    {
      HoleOnStack(m, s, n, i);
      assert FitsAt(m.list, m.list[i].id, r, adj);
    }
  }

  // The list as the scan `c` has left it, and the saved places of the blocks taken off.
  ghost predicate Tracks(c: Scan, m: Mm, off: map<Id, Off>, n: nat, start: int, size: int) {
    match m
    case Mm(list, stack) =>
      && Good(c) && list == Now(c) && off == Saved(c) && n == |Ids(c)|
      && Ok(Mm(Origin(c), stack), start, size) && Positive(Origin(c))
  }

  lemma AddTracks(c: Scan, m: Mm, off: map<Id, Off>, n: nat, start: int, size: int, k: nat)
    requires Tracks(c, m, off, n, start, size) && 0 < k < |m.list|
    ensures Tracks(Add(c, k), m.(list := AddList(m.list, k)), off[m.list[k].id := AddOff(m.list, k)], n + 1, start, size)
    ensures TopId(Add(c, k)) == m.list[k].id
  {
  }

  class Manager {
    var list: seq<Node>
    var stack: seq<Id>
    const adjust: Adjust

    // The scan: its parameters, the last hit, and the blocks taken off the list.
    var scan: Request
    var hitStart: int
    var hitEnd: int
    var scannedBlocks: nat
    var off: map<Id, Off>

    ghost const start: int
    ghost const size: int
    ghost var progress: Scan

    ghost function View(): Mm
      reads this
    {
      Mm(list, stack)
    }

    // No scan is in progress.
    ghost predicate Valid()
      reads this
    {
      Ok(View(), start, size) && Shrinks(adjust) && scannedBlocks == 0 && off == map[]
    }

    // A scan is in progress; `progress` tells how the list came to be what it is.
    ghost predicate Scanning()
      reads this
    {
      Tracks(progress, View(), off, scannedBlocks, start, size) && Shrinks(adjust)
    }

    constructor (start: int, size: int, adjust: Adjust)
      requires 0 <= start && 0 <= size && Shrinks(adjust)
      ensures View() == Init(start, size) && Positive(list) && (Valid() <==> size > 0)
      ensures this.start == start && this.size == size && this.adjust == adjust
    {
      this.start, this.size, this.adjust := start, size, adjust;
      list := [Node(HEAD, start + size, start - (start + size), 0, true)];
      stack := [HEAD];
      scannedBlocks, off, hitStart, hitEnd := 0, map[], 0, 0;
      scan := Request(0, 0, 0, false, 0, 0);
      progress := Begin([]);
      new;
      InitOkExactly(start, size);
    }

    /** First fit: the first hole on the stack that fits, or none at all. */
    method SearchFirst(r: Request) returns (found: bool, at: nat)
      requires Valid()
      ensures found ==> at < |list| && list[at].holeFollows && Fits(list, at, r, adjust)
      ensures found ==> FirstFit(View(), at, r, adjust)
      ensures found <==> SomeHoleFits(list, r, adjust)
    {
      found, at := false, 0;
      for k := 0 to |stack|
        invariant NoneFits(list, stack[..k], r, adjust)
      {
        var i := IndexOf(list, stack[k]);
        OwnerListed(View(), start, size, stack[k]);
        if Fits(list, i, r, adjust) {
          return true, i;
        }
        assert stack[..k + 1] == stack[..k] + [stack[k]];
      }
      assert stack[..|stack|] == stack;
      StackIsAll(View(), start, size, r, adjust);
    }

    /** DRM_MM_SEARCH_BEST: of the holes that fit, the first one behind a smallest node.  It overlooks a hole
        exactly when the size of the node before it reads as the largest unsigned long. */
    method SearchBest(r: Request) returns (found: bool, at: nat)
      requires Valid()
      ensures found ==> at < |list| && list[at].holeFollows && Fits(list, at, r, adjust)
      ensures found ==> forall i | 0 <= i < |list| && list[i].holeFollows && Fits(list, i, r, adjust) ::
                          Unsigned(list[at].size) <= Unsigned(list[i].size)
      ensures found <==> exists i: nat | i < |list| :: list[i].holeFollows && Fits(list, i, r, adjust)
                                                      && Unsigned(list[i].size) < ULONG_MAX
    {
      found, at := false, 0;
      var bestSize := ULONG_MAX;
      for k := 0 to |stack|
        invariant found ==> at < |list| && list[at].holeFollows && Fits(list, at, r, adjust) && bestSize == Unsigned(list[at].size) < ULONG_MAX
        invariant !found ==> bestSize == ULONG_MAX
        invariant NoneBetter(View(), k, r, adjust, bestSize)
      {
        var i := IndexOf(list, stack[k]);
        OwnerListed(View(), start, size, stack[k]);
        if Fits(list, i, r, adjust) && Unsigned(list[i].size) < bestSize {
          found, at, bestSize := true, i, Unsigned(list[i].size);
        }
      }
      NoneBetterAnywhere(View(), start, size, r, adjust, bestSize);
    }

    // Links a node into the hole behind node `i`.
    method PutNode(i: nat, x: Node)
      requires Valid() && FitsHole(list, i, x)
      modifies `list, `stack
      ensures Valid() && View() == Insert(old(View()), i, x)
      ensures old(Positive(list)) && x.size > 0 ==> Positive(list)
    {
      InsertKeeps(View(), start, size, i, x);
      stack := InsertStack(Mm(list, stack), i, x);
      list := InsertList(list, i, x);
    }

    /** drm_mm_insert_node_generic and its range variant: place the node, aligned and in range, in a hole that
        has room, or report that there is none and change nothing. */
    method InsertNode(id: Id, r: Request, best: bool) returns (ok: bool)
      requires Valid() && NewId(list, id)
      modifies `list, `stack
      ensures Valid()
      ensures ok ==> exists i, x :: WellPlaced(old(list), i, r, adjust, x) && x.id == id && x.color == r.color
                                    && View() == Insert(old(View()), i, x) && (best || FirstFit(old(View()), i, r, adjust))
      ensures !ok ==> View() == old(View())
      ensures !best ==> (ok <==> SomeHoleFits(old(list), r, adjust))
      ensures old(Positive(list)) && r.size > 0 ==> Positive(list)
    {
      var found, i;
      if best {
        found, i := SearchBest(r);
      } else {
        found, i := SearchFirst(r);
      }
      if !found {
        return false;
      }
      var x := Place(list, i, r, adjust, id);
      PlaceIsWell(list, i, r, adjust, id);
      PutNode(i, x);
      return true;
    }

    /** Without a colour adjustment, first fit fails exactly when no free aligned block of the size exists. */
    lemma FirstFitIsComplete(r: Request)
      requires Valid() && adjust.NoAdjust? && r.size > 0
      ensures SomeHoleFits(list, r, adjust) <==> exists a: int :: Serves(list, start, size, r, a)
    {
      FitsIffFree(list, start, size, r);
    }

    // The hole that covers [at, at + length).
    method FindHole(at: int, length: nat) returns (found: bool, i: nat)
      requires Valid()
      ensures found ==> i < |list| && list[i].holeFollows && HoleStart(list, i) <= at && at + length <= HoleEnd(list, i)
      ensures length > 0 ==> (found <==> FreeBlock(list, start, size, at, length))
    {
      for k := 0 to |stack|
        invariant NoneHolds(list, stack[..k], at, length)
      {
        i := IndexOf(list, stack[k]);
        OwnerListed(View(), start, size, stack[k]);
        if HoleStart(list, i) <= at && at + length <= HoleEnd(list, i) {
          HoldsFree(list, start, size, i, at, length);
          return true, i;
        }
        assert stack[..k + 1] == stack[..k] + [stack[k]];
      }
      assert stack[..|stack|] == stack;
      if length > 0 {
        NoneHoldsNoneFree(View(), start, size, at, length);
      }
      return false, 0;
    }

    /** drm_mm_reserve_node: succeeds exactly when the wanted memory is free. */
    method ReserveNode(id: Id, at: int, length: nat, color: int) returns (ok: bool)
      requires Valid() && NewId(list, id)
      modifies `list, `stack
      ensures Valid()
      ensures ok ==> exists i, x :: FitsHole(old(list), i, x) && x.id == id && x.start == at && x.size == length
                                    && View() == Insert(old(View()), i, x)
      ensures !ok ==> View() == old(View())
      ensures length > 0 ==> (ok <==> FreeBlock(old(list), start, size, at, length))
      ensures old(Positive(list)) && length > 0 ==> Positive(list)
    {
      var i;
      ok, i := FindHole(at, length);
      if ok {
        var x := Node(id, at, length, color, false);
        assert FitsHole(list, i, x);
        PutNode(i, x);
      }
    }

    /** drm_mm_remove_node: gives the memory back, or warns when the node is not allocated.  The allocator
        stays well formed exactly when there is a hole where the node was. */
    method RemoveNode(id: Id) returns (warned: bool)
      requires Valid() && id != HEAD
      modifies `list, `stack
      ensures warned <==> NewId(old(list), id)
      ensures Valid() <==> warned || (0 < IndexOf(old(list), id) < |old(list)| && LeavesHole(old(list), IndexOf(old(list), id)))
      ensures View() == Evict(old(View()), [id])
      ensures old(Positive(list)) ==> Positive(list)
    {
      var i := IndexOf(list, id);
      if i == |list| {
        return true;
      }
      RemoveKeepsExactly(View(), start, size, i);
      stack := RemoveStack(Mm(list, stack), i);
      list := RemoveList(list, i);
      return false;
    }

    /** drm_mm_debug_table: what it reports as used and as free adds up to the managed size. */
    method DebugTotals() returns (used: int, free: int)
      requires Valid()
      ensures used == Used(list, |list|) && free == Free(list, |list|)
      ensures used + free == size
    {
      used := 0;
      free := if list[0].holeFollows then HoleEnd(list, 0) - HoleStart(list, 0) else 0;
      for k := 1 to |list|
        invariant used == Used(list, k) && free == Free(list, k)
      {
        used := used + list[k].size;
        free := free + (if list[k].holeFollows then HoleEnd(list, k) - HoleStart(list, k) else 0);
      }
      TotalsAddUp(list, start, size);
    }

    /// The eviction scan

    method InitScan(r: Request)
      requires Valid() && Positive(list)
      modifies `scan, `hitStart, `hitEnd, `progress
      ensures Scanning() && progress == Begin(list) && scan == r && hitStart == hitEnd == 0
    {
      scan, hitStart, hitEnd, progress := r, 0, 0, Begin(list);
    }

    /** drm_mm_scan_add_block: takes the block off the list and tells whether the hole around it will do. */
    method ScanAdd(id: Id) returns (hit: bool)
      requires Scanning() && 0 < IndexOf(list, id) < |list|
      modifies `list, `off, `scannedBlocks, `hitStart, `hitEnd, `progress
      ensures Scanning() && progress == Add(old(progress), IndexOf(old(list), id)) && TopId(progress) == id
      ensures if hit then Hit(progress, scan, adjust, hitStart, hitEnd)
              else hitStart == old(hitStart) && hitEnd == old(hitEnd)
                   && !ScanFits(Now(progress), progress.k - 1, scan, adjust)
    {
      var k := IndexOf(list, id);
      AddTracks(progress, View(), off, scannedBlocks, start, size, k);
      scannedBlocks := scannedBlocks + 1;
      off := off[id := Off(list[k], list[k - 1].id, list[k - 1].holeFollows)];
      list := AddList(list, k);
      progress := Add(progress, k);
      if ScanFits(list, k - 1, scan, adjust) {
        hitStart, hitEnd := HoleStart(list, k - 1), HoleEnd(list, k - 1);
        return true;
      }
      return false;
    }

    // drm_mm_scan_remove_block on any block: it goes back behind the neighbour it remembers.
    method PutBack(id: Id) returns (evict: bool)
      requires id in off && scannedBlocks > 0 && IndexOf(list, off[id].prev) < |list|
      modifies `list, `off, `scannedBlocks
      ensures var p := IndexOf(old(list), old(off)[id].prev);
              && list == BackList(old(list), p, old(off)[id])
              && (evict <==> Reported(list, p + 1, hitStart, hitEnd))
      ensures off == old(off) - {id} && scannedBlocks == old(scannedBlocks) - 1
    {
      scannedBlocks := scannedBlocks - 1;
      var o := off[id];
      var p := IndexOf(list, o.prev);
      off := off - {id};
      list := BackList(list, p, o);
      evict := HoleEnd(list, p + 1) > hitStart && o.node.start < hitEnd;
    }

    /** drm_mm_scan_remove_block on a block whose neighbour is on the list.  If it is the block added last,
        everything is as before that block was added. */
    method ScanRemove(id: Id) returns (evict: bool)
      requires id in off && scannedBlocks > 0 && IndexOf(list, off[id].prev) < |list|
      modifies `list, `off, `scannedBlocks, `progress
      ensures var p := IndexOf(old(list), old(off)[id].prev);
              && list == BackList(old(list), p, old(off)[id])
              && (evict <==> Reported(list, p + 1, hitStart, hitEnd))
      ensures off == old(off) - {id} && scannedBlocks == old(scannedBlocks) - 1
      ensures old(Scanning() && progress.Add? && id == TopId(progress)) ==>
                && Scanning() && progress == old(progress).before
                && IndexOf(old(list), old(off)[id].prev) + 1 == old(progress).k
    {
      ghost var last := progress.Add? && Scanning() && id == TopId(progress);
      if last {
        OkSorted(Origin(progress), start, size);
        ScanSorted(progress.before, start, size);
        BackUndoesAdd(Now(progress.before), progress.k, IndexOf(list, off[id].prev));
        SavedForgets(progress.before, progress.k, start, size);
      }
      evict := PutBack(id);
      if last {
        progress := progress.before;
      }
    }

    // The same for a scan that is unwound, the last block first.
    method ScanRemoveLast(id: Id) returns (evict: bool)
      requires Scanning() && progress.Add? && id == TopId(progress)
      modifies `list, `off, `scannedBlocks, `progress
      ensures Scanning() && progress == old(progress).before
      ensures evict <==> Reported(list, old(progress).k, hitStart, hitEnd)
    {
      LastGoesBack();
      evict := ScanRemove(id);
    }

    // The block added last can be taken off again.
    lemma LastGoesBack()
      requires Scanning() && progress.Add?
      ensures TopId(progress) in off && scannedBlocks > 0 && IndexOf(list, off[TopId(progress)].prev) < |list|
    {
      PrevListed(progress.before, progress.k);
    }
  }

  /** In an allocator of fewer than ULONG_MAX units whose nodes all have a size, best fit misses what first
      fit would find exactly when a single unit is managed. */
  lemma BestFitOverlooksExactly(l: seq<Node>, s: int, n: int, r: Request, adj: Adjust)
    requires ListOk(l, s, n) && Positive(l) && n < ULONG_MAX && SomeHoleFits(l, r, adj)
    ensures !(exists i: nat | i < |l| :: l[i].holeFollows && Fits(l, i, r, adj) && Unsigned(l[i].size) < ULONG_MAX) <==> n == 1
  {
    forall i: nat | i < |l| && l[i].holeFollows
      ensures Unsigned(l[i].size) == ULONG_MAX <==> n == 1
    {
      EndsBelow(l, s, n, i);
      assert GapOk(l, i);
      if i > 0 {
        OrderedAndDisjoint(l, s, n, 0, i);
      }
    }
    var i: nat :| i < |l| && l[i].holeFollows && Fits(l, i, r, adj);
    assert Unsigned(l[i].size) == ULONG_MAX <==> n == 1;
    assert n != 1 ==> Unsigned(l[i].size) < ULONG_MAX by {
      if i > 0 {
        OrderedAndDisjoint(l, s, n, 0, i);
      }
    }
  }

  /** So a request for the one unit of a fresh allocator is refused. */
  lemma BestFitCanOverlook(s: int)
    requires 0 <= s
    ensures var l, r := Init(s, 1).list, Request(1, 0, 0, false, 0, 0);
            && ListOk(l, s, 1) && SomeHoleFits(l, r, NoAdjust)
            && !exists i: nat | i < |l| :: l[i].holeFollows && Fits(l, i, r, NoAdjust) && Unsigned(l[i].size) < ULONG_MAX
  {
    var l, r := Init(s, 1).list, Request(1, 0, 0, false, 0, 0);
    InitOkExactly(s, 1);
    assert l[0].holeFollows && Fits(l, 0, r, NoAdjust);
    BestFitOverlooksExactly(l, s, 1, r, NoAdjust);
  }

  // The hole behind the node named `x` covers [at, at + length).
  ghost predicate Holds(l: seq<Node>, x: Id, at: int, length: nat) {
    var i := IndexOf(l, x);
    i < |l| && HoleStart(l, i) <= at && at + length <= HoleEnd(l, i)
  }

  ghost predicate NoneHolds(l: seq<Node>, ids: seq<Id>, at: int, length: nat) {
    forall x | x in ids :: !Holds(l, x, at, length)
  }

  lemma NoneHoldsNoneFree(m: Mm, s: int, n: int, at: int, length: nat)
    requires Ok(m, s, n) && NoneHolds(m.list, m.stack, at, length) && length > 0
    ensures !FreeBlock(m.list, s, n, at, length)
  {
    if FreeBlock(m.list, s, n, at, length) {
      var i := FreeBlockInHole(m.list, s, n, at, length);
      HoleOnStack(m, s, n, i);
      assert false;
    }
  }

  lemma HoldsFree(l: seq<Node>, s: int, n: int, i: nat, at: int, length: nat)
    requires ListOk(l, s, n) && i < |l| && HoleStart(l, i) <= at && at + length <= HoleEnd(l, i)
    ensures FreeBlock(l, s, n, at, length)
  {
    EndsBelow(l, s, n, i);
    if i > 0 {
      OrderedAndDisjoint(l, s, n, 0, i);
    }
    forall j | 0 < j < |l| ensures at + length <= l[j].start || HoleStart(l, j) <= at {
      if j < i {
        OrderedAndDisjoint(l, s, n, j, i);
      } else if j > i + 1 {
        OrderedAndDisjoint(l, s, n, i + 1, j);
      }
    }
  }

  lemma PrevListed(before: Scan, k: nat)
    requires Good(before) && 0 < k < |Now(before)|
    ensures IndexOf(AddList(Now(before), k), Now(before)[k - 1].id) < |Now(before)| - 1
  {
    assert AddList(Now(before), k)[k - 1].id == Now(before)[k - 1].id;
  }

  lemma SavedForgets(before: Scan, k: nat, s: int, n: int)
    requires Good(before) && 0 < k < |Now(before)| && Sorted(Origin(before), s, n)
    ensures Saved(Add(before, k)) - {Now(before)[k].id} == Saved(before)
  {
    var x := Now(before)[k].id;
    if x in Saved(before) {
      SavedOffList(before, s, n, x);
      assert false;
    }
  }
}
