/**
 * i915_gem_evict_something: mark idle buffers on the eviction scan in LRU order until a hole appears,
 * then unwind the scan and unbind the buffers inside the hole.
 */
module GemEvict {
  import opened RangeList
  import opened RangeFit
  import opened EvictionScan
  import opened DrmMm

  datatype Code = Evicted | ENOSPC | EAGAIN | IdleFailed(error: int)

  // The LRU lists of an address space and the pinned buffers at one moment.
  datatype Lru = Lru(inactive: seq<Id>, active: seq<Id>, pinned: set<Id>)

  // Every buffer on the lists is bound to memory.
  ghost predicate AllBound(l: seq<Node>, ids: seq<Id>) {
    forall x | x in ids :: Listed(l, x)
  }

  ghost predicate Bound(l: seq<Node>, lru: Lru) {
    AllBound(l, lru.inactive) && AllBound(l, lru.active)
  }

  // The blocks on the scan, as a set.
  ghost function OnScan(c: Scan): set<Id>
    requires Good(c)
  {
    set x | x in Ids(c)
  }

  lemma StillListed(c: Scan, s: int, n: int, id: Id)
    requires Good(c) && ListOk(Origin(c), s, n) && Positive(Origin(c)) && Listed(Origin(c), id) && id !in OnScan(c)
    ensures 0 < IndexOf(Now(c), id) < |Now(c)|
  {
    OkSorted(Origin(c), s, n);
    ScanSorted(c, s, n);
    ListedOrScanned(c, id);
    ListedIndex(Now(c), id);
  }

  class AddressSpace {
    const mm: Manager

    // The buffers whose exec_list link is in use.
    var exec: set<Id>

    constructor (mm: Manager)
      ensures this.mm == mm && exec == {}
    {
      this.mm := mm;
      exec := {};
    }

    // The scan started with `others` already on exec lists, has marked exactly `marked`, and `unwind` lists them.
    ghost predicate Marking(unwind: seq<Id>, others: set<Id>, marked: set<Id>)
      reads this, mm
    {
      && mm.Scanning() && unwind == Ids(mm.progress) && OnScan(mm.progress) == marked
      && exec == others + marked && others !! marked
    }

    /** mark_free: pinned buffers and buffers on another exec list are passed over. */
    method MarkFree(id: Id, pinned: set<Id>, unwind: seq<Id>, ghost others: set<Id>, ghost marked: set<Id>)
      returns (unwound: seq<Id>, hit: bool)
      requires Marking(unwind, others, marked) && Listed(Origin(mm.progress), id)
      modifies this, mm`list, mm`off, mm`scannedBlocks, mm`hitStart, mm`hitEnd, mm`progress
      ensures Marking(unwound, others, marked + ({id} - pinned - others)) && Origin(mm.progress) == old(Origin(mm.progress))
      ensures hit ==> mm.progress.Add? && mm.progress.before == old(mm.progress)
      ensures hit ==> Hit(mm.progress, mm.scan, mm.adjust, mm.hitStart, mm.hitEnd)
      ensures !hit ==> mm.hitStart == old(mm.hitStart) && mm.hitEnd == old(mm.hitEnd)
      ensures !hit && Missed(old(mm.progress), mm.scan, mm.adjust) ==> Missed(mm.progress, mm.scan, mm.adjust)
    {
      if id in pinned || id in exec {
        assert marked + ({id} - pinned - others) == marked;
        return unwind, false;
      }
      StillListed(mm.progress, mm.start, mm.size, id);
      unwound := [id] + unwind;
      exec := exec + {id};
      hit := mm.ScanAdd(id);
      assert OnScan(mm.progress) == marked + {id};
    }

    // A loop over a part of the lists, until a hole is found.
    method MarkAll(order: seq<Id>, from: nat, to: nat, pinned: set<Id>, unwind: seq<Id>, ghost others: set<Id>)
      returns (unwound: seq<Id>, hit: bool, ghost k: nat)
      requires from <= to <= |order| && Marking(unwind, others, Candidates(order[..from], pinned, others))
      requires AllBound(Origin(mm.progress), order) && Missed(mm.progress, mm.scan, mm.adjust)
      modifies this, mm`list, mm`off, mm`scannedBlocks, mm`hitStart, mm`hitEnd, mm`progress
      ensures Origin(mm.progress) == old(Origin(mm.progress)) && from <= k <= to
      ensures hit ==> k < to && Marking(unwound, others, Candidates(order[..k + 1], pinned, others))
      ensures hit ==> Hit(mm.progress, mm.scan, mm.adjust, mm.hitStart, mm.hitEnd)
      ensures hit ==> && Missed(mm.progress.before, mm.scan, mm.adjust)
                      && OnScan(mm.progress.before) == Candidates(order[..k], pinned, others)
      ensures !hit ==> k == to && Marking(unwound, others, Candidates(order[..to], pinned, others))
      ensures !hit ==> Missed(mm.progress, mm.scan, mm.adjust)
                       && mm.hitStart == old(mm.hitStart) && mm.hitEnd == old(mm.hitEnd)
    {
      unwound, hit, k := unwind, false, from;
      for i := from to to
        invariant k == i && Marking(unwound, others, Candidates(order[..i], pinned, others))
        invariant Origin(mm.progress) == old(Origin(mm.progress))
        invariant Missed(mm.progress, mm.scan, mm.adjust) && mm.hitStart == old(mm.hitStart) && mm.hitEnd == old(mm.hitEnd)
        invariant !hit
      {
        assert order[i] in order;
        CandidatesNext(order, i, pinned, others);
        unwound, hit := MarkFree(order[i], pinned, unwound, others, Candidates(order[..i], pinned, others));
        if hit {
          return;
        }
        k := k + 1;
      }
    }

    /** The way out when nothing was found: no block is reported, so the BUG_ON cannot fire, and the
        allocator is as it was. */
    method UnwindNone(unwind: seq<Id>, ghost others: set<Id>, ghost marked: set<Id>)
      requires Marking(unwind, others, marked) && mm.hitStart == mm.hitEnd == 0
      modifies this, mm`list, mm`off, mm`scannedBlocks, mm`progress
      ensures mm.Scanning() && mm.progress == Begin(old(Origin(mm.progress))) && exec == others
    {
      var rest := unwind;
      while rest != []
        invariant mm.Scanning() && Marking(rest, others, OnScan(mm.progress)) && Origin(mm.progress) == old(Origin(mm.progress))
        decreases |rest|
      {
        OkSorted(Origin(mm.progress), mm.start, mm.size);
        ScanSorted(mm.progress.before, mm.start, mm.size);
        TopOnce(mm.progress, mm.start, mm.size);
        NoHitNoReport(Now(mm.progress.before), mm.start, mm.size, mm.progress.k);
        var evict := mm.ScanRemoveLast(rest[0]);
        assert !evict;
        exec := exec - {rest[0]};
        rest := rest[1..];
      }
    }

    // The blocks still on the scan or already chosen, while the scan is unwound.
    ghost predicate Unwinding(rest: seq<Id>, chosen: seq<Id>, others: set<Id>)
      reads this, mm
    {
      && mm.Scanning() && rest == Ids(mm.progress)
      && exec == others + OnScan(mm.progress) + (set x | x in chosen)
      && (forall x | x in chosen :: x !in OnScan(mm.progress) && x !in others)
      && others !! OnScan(mm.progress)
    }

    // One turn of the collecting loop.
    method UnwindOne(id: Id, chosen: seq<Id>, ghost rest: seq<Id>, ghost others: set<Id>) returns (chosen': seq<Id>)
      requires Unwinding(rest, chosen, others) && rest != [] && id == rest[0]
      modifies this, mm`list, mm`off, mm`scannedBlocks, mm`progress
      ensures Unwinding(rest[1..], chosen', others) && mm.progress == old(mm.progress).before
      ensures chosen' == if Reported(Now(mm.progress), old(mm.progress).k, mm.hitStart, mm.hitEnd) then [id] + chosen else chosen
    {
      OkSorted(Origin(mm.progress), mm.start, mm.size);
      TopOnce(mm.progress, mm.start, mm.size);
      var evict := mm.ScanRemoveLast(id);
      if evict {
        return [id] + chosen;
      }
      exec := exec - {id};
      return chosen;
    }

    /** The way out after a hit: the reported blocks are chosen for eviction, the list is repaired. */
    method UnwindFound(unwind: seq<Id>, ghost others: set<Id>, ghost marked: set<Id>) returns (chosen: seq<Id>)
      requires Marking(unwind, others, marked)
      modifies this, mm`list, mm`off, mm`scannedBlocks, mm`progress
      ensures mm.Scanning() && mm.progress == Begin(old(Origin(mm.progress)))
      ensures chosen == Victims(old(mm.progress), mm.hitStart, mm.hitEnd, [])
      ensures exec == others + (set x | x in chosen) && forall x | x in chosen :: x !in others
    {
      var rest := unwind;
      chosen := [];
      while rest != []
        invariant Unwinding(rest, chosen, others) && Origin(mm.progress) == old(Origin(mm.progress))
        invariant Victims(mm.progress, mm.hitStart, mm.hitEnd, chosen) == Victims(old(mm.progress), mm.hitStart, mm.hitEnd, [])
        decreases |rest|
      {
        chosen := UnwindOne(rest[0], chosen, rest, others);
        rest := rest[1..];
      }
    }

    /** Unbinding gives the memory of the chosen buffers back, one after the other. */
    method UnbindAll(chosen: seq<Id>)
      requires mm.Valid() && Positive(mm.list) && HEAD !in chosen
      modifies this, mm`list, mm`stack
      ensures mm.Valid() && Positive(mm.list) && mm.View() == Evict(old(mm.View()), chosen)
      ensures exec == old(exec) - (set x | x in chosen)
    {
      var rest := chosen;
      while rest != []
        invariant mm.Valid() && Positive(mm.list) && HEAD !in rest
        invariant Evict(mm.View(), rest) == Evict(old(mm.View()), chosen)
        invariant exec - (set x | x in rest) == old(exec) - (set x | x in chosen)
        decreases |rest|
      {
        exec := exec - {rest[0]};
        var warned := mm.RemoveNode(rest[0]);
        rest := rest[1..];
      }
    }

    // The loops over the inactive and, if waiting is allowed, the active list.
    method Search(lru: Lru, nonblock: bool) returns (unwind: seq<Id>, hit: bool, ghost k: nat)
      requires mm.Scanning() && mm.progress == Begin(mm.list) && mm.hitStart == mm.hitEnd == 0 && Bound(mm.list, lru)
      modifies this, mm`list, mm`off, mm`scannedBlocks, mm`hitStart, mm`hitEnd, mm`progress
      ensures mm.Scanning() && Origin(mm.progress) == old(mm.list) && k <= |Order(lru, nonblock)|
      ensures hit ==> && k < |Order(lru, nonblock)|
                      && Marking(unwind, old(exec), Candidates(Order(lru, nonblock)[..k + 1], lru.pinned, old(exec)))
                      && Hit(mm.progress, mm.scan, mm.adjust, mm.hitStart, mm.hitEnd)
                      && Missed(mm.progress.before, mm.scan, mm.adjust)
                      && OnScan(mm.progress.before) == Candidates(Order(lru, nonblock)[..k], lru.pinned, old(exec))
      ensures !hit ==> && Marking(unwind, old(exec), Candidates(Order(lru, nonblock), lru.pinned, old(exec)))
                       && Missed(mm.progress, mm.scan, mm.adjust) && mm.hitStart == mm.hitEnd == 0
    {
      ghost var others := exec;
      var order := Order(lru, nonblock);
      assert Candidates(order[..0], lru.pinned, others) == {};
      unwind, hit, k := MarkAll(order, 0, |lru.inactive|, lru.pinned, [], others);
      if !hit && !nonblock {
        unwind, hit, k := MarkAll(order, |lru.inactive|, |order|, lru.pinned, unwind, others);
      }
      assert order[..|order|] == order;
    }

    // One search over the lists; the scan must be fresh.
    method Pass(lru: Lru, nonblock: bool) returns (found: bool)
      requires mm.Scanning() && mm.progress == Begin(mm.list) && mm.hitStart == mm.hitEnd == 0
      requires Bound(mm.list, lru) && mm.scan.size > 0
      modifies this, mm`list, mm`stack, mm`off, mm`scannedBlocks, mm`hitStart, mm`hitEnd, mm`progress
      ensures exec == old(exec) && Positive(mm.list) && mm.Valid()
      ensures !found ==> mm.View() == old(mm.View()) && mm.Scanning() && mm.progress == Begin(mm.list) && mm.hitStart == mm.hitEnd == 0
      ensures found ==> EvictsOldest(old(mm.View()), mm.View(), mm.scan, mm.adjust, Order(lru, nonblock), lru.pinned, exec)
      ensures !found ==> Hopeless(mm.View(), mm.scan, mm.adjust, Candidates(Order(lru, nonblock), lru.pinned, exec))
    {
      ghost var others, order := exec, Order(lru, nonblock);
      ghost var k;
      var unwind, hit;
      unwind, hit, k := Search(lru, nonblock);
      if !hit {
        MissIsExact(mm.progress, mm.stack, mm.start, mm.size, mm.scan, mm.adjust);
        UnwindNone(unwind, others, Candidates(order, lru.pinned, others));
        return false;
      }
      ghost var marked := Candidates(order[..k + 1], lru.pinned, others);
      HitIsExact(mm.progress, mm.stack, mm.start, mm.size, mm.scan, mm.adjust, mm.hitStart, mm.hitEnd, order);
      MissIsExact(mm.progress.before, mm.stack, mm.start, mm.size, mm.scan, mm.adjust);
      var chosen := UnwindFound(unwind, others, marked);
      UnbindAll(chosen);
      return true;
    }

    /** Either the oldest buffers that make room are evicted, so that a first-fit search for the same request
        succeeds at once, or nothing at all has changed and evicting every candidate would not have helped.
        Pinned and busy buffers are never evicted. */
    method EvictSomething(r: Request, nonblock: bool, first: Lru, idle: int, second: Lru, pendingUnpin: bool)
      returns (ret: Code)
      requires mm.Valid() && Positive(mm.list) && r.size > 0 && Bound(mm.list, first) && Bound(mm.list, second)
      modifies this, mm
      ensures mm.Valid() && Positive(mm.list) && exec == old(exec)
      ensures ret.Evicted? ==>
        || EvictsOldest(old(mm.View()), mm.View(), r, mm.adjust, Order(first, nonblock), first.pinned, exec)
        || (!nonblock && idle == 0 && EvictsOldest(old(mm.View()), mm.View(), r, mm.adjust, Order(second, nonblock), second.pinned, exec))
      ensures !ret.Evicted? ==> mm.View() == old(mm.View())
                                && Hopeless(mm.View(), r, mm.adjust, Candidates(Order(first, nonblock), first.pinned, exec))
      ensures (ret.ENOSPC? || ret.EAGAIN?) && !nonblock ==>
        Hopeless(mm.View(), r, mm.adjust, Candidates(Order(second, nonblock), second.pinned, exec))
      ensures ret.IdleFailed? ==> !nonblock && ret.error == idle != 0
      ensures ret.EAGAIN? ==> !nonblock && pendingUnpin
    {
      mm.InitScan(r);
      var found := Pass(first, nonblock);
      if found {
        return Evicted;
      }
      if nonblock {
        return ENOSPC;
      }
      if idle != 0 {
        return IdleFailed(idle);
      }
      found := Pass(second, nonblock);
      if found {
        return Evicted;
      }
      return if pendingUnpin then EAGAIN else ENOSPC;
    }
  }

  // The buffers in the order they are tried; those in use only if waiting for them is allowed.
  function Order(lru: Lru, nonblock: bool): seq<Id> {
    if nonblock then lru.inactive else lru.inactive + lru.active
  }

  // The buffers of a list that may be evicted.
  ghost function Candidates(ids: seq<Id>, pinned: set<Id>, exec: set<Id>): set<Id> {
    (set x | x in ids) - pinned - exec
  }

  lemma CandidatesNext(order: seq<Id>, k: nat, pinned: set<Id>, exec: set<Id>)
    requires k < |order|
    ensures Candidates(order[..k + 1], pinned, exec) == Candidates(order[..k], pinned, exec) + ({order[k]} - pinned - exec)
  {
    assert order[..k + 1] == order[..k] + [order[k]];
  }

  // `m'` is `m` without some of the candidates, and the hole on top of its stack serves the request.
  ghost predicate Opens(m: Mm, m': Mm, r: Request, adj: Adjust, candidates: set<Id>) {
    && (exists ids: seq<Id> :: m' == Evict(m, ids) && forall x | x in ids :: x in candidates)
    && m'.stack != [] && FitsAt(m'.list, m'.stack[0], r, adj)
  }

  // If no hole serves the request now, none does when all the marked buffers are evicted.
  ghost predicate Hopeless(m: Mm, r: Request, adj: Adjust, marked: set<Id>) {
    NoGapFits(m.list, r, adj) ==>
      exists ids: seq<Id> :: (forall x :: x in ids <==> x in marked) && NoGapFits(Evict(m, ids).list, r, adj)
  }

  // Buffers among the first ones of the order are evicted; fewer of the first ones would not have done.
  ghost predicate EvictsOldest(m: Mm, m': Mm, r: Request, adj: Adjust, order: seq<Id>, pinned: set<Id>, exec: set<Id>) {
    exists k: nat | k < |order| ::
      && Opens(m, m', r, adj, Candidates(order[..k + 1], pinned, exec))
      && Hopeless(m, r, adj, Candidates(order[..k], pinned, exec))
  }

  lemma MissIsExact(c: Scan, stack: seq<Id>, s: int, n: int, r: Request, adj: Adjust)
    requires Good(c) && Ok(Mm(Origin(c), stack), s, n) && Positive(Origin(c)) && Missed(c, r, adj)
    ensures Hopeless(Mm(Origin(c), stack), r, adj, OnScan(c))
  {
    if NoGapFits(Origin(c), r, adj) {
      MissIsComplete(c, r, adj);
      OkSorted(Origin(c), s, n);
      ScanIsEviction(c, stack, s, n);
      forall x ensures x in Added(c) <==> x in OnScan(c) {
        AddedAreIds(c, x);
      }
    }
  }

  lemma HitIsExact(c: Scan, stack: seq<Id>, s: int, n: int, r: Request, adj: Adjust, lo: int, hi: int, order: seq<Id>)
    requires Good(c) && Ok(Mm(Origin(c), stack), s, n) && Positive(Origin(c)) && r.size > 0 && Hit(c, r, adj, lo, hi)
    requires AllBound(Origin(c), order) && forall x | x in OnScan(c) :: x in order
    ensures var ids := Victims(c, lo, hi, []);
            HEAD !in ids && Opens(Mm(Origin(c), stack), Evict(Mm(Origin(c), stack), ids), r, adj, OnScan(c))
  {
    var ids := Victims(c, lo, hi, []);
    OkSorted(Origin(c), s, n);
    var b, e := VictimsOfHit(c, s, n, lo, hi);
    b := HitThenEvict(c, stack, s, n, r, adj, lo, hi, ids);
    IndexIs(Evict(Mm(Origin(c), stack), ids).list, b);
    forall x | x in ids ensures x in OnScan(c) && x != HEAD {
      VictimsScanned(c, lo, hi, [], x);
      assert x in OnScan(c);
      ListedIndex(Origin(c), x);
    }
  }
}
