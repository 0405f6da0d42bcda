/**
 * Requests for memory, the holes that can serve them, and where a node is then placed.
 */
module RangeFit {
  import opened RangeList

  // What a colour adjustment may look at.
  datatype Info = Info(start: int, size: int, color: int)

  // mm->color_adjust: from the node before the hole, the node behind it, the colour and the bounds to new bounds.
  datatype Adjust = NoAdjust | Adjust(f: (Info, Info, int, int, int) -> (int, int))

  datatype Request = Request(size: nat, alignment: nat, color: int, ranged: bool, lo: int, hi: int)

  // An adjustment only takes space away.
  ghost predicate Shrinks(adj: Adjust) {
    adj.Adjust? ==> forall h, x, c, a, b :: a <= adj.f(h, x, c, a, b).0 && adj.f(h, x, c, a, b).1 <= b
  }

  function InfoOf(n: Node): Info {
    Info(n.start, n.size, n.color)
  }

  function Next(l: seq<Node>, i: nat): Node
    requires i < |l|
  {
    if i + 1 < |l| then l[i + 1] else l[0]
  }

  function Clip(start: int, end: int, r: Request): (int, int) {
    (if r.ranged && start < r.lo then r.lo else start, if r.ranged && end > r.hi then r.hi else end)
  }

  // The part of the hole behind node `i` that may serve the request.
  function Bounds(l: seq<Node>, i: nat, r: Request, adj: Adjust): (int, int)
    requires i < |l|
  {
    var (a, b) := Clip(HoleStart(l, i), HoleEnd(l, i), r);
    match adj
    case NoAdjust => (a, b)
    case Adjust(f) => f(InfoOf(l[i]), InfoOf(Next(l, i)), r.color, a, b)
  }

  // The test of the eviction scan.
  predicate ScanFits(l: seq<Node>, i: nat, r: Request, adj: Adjust)
    requires i < |l|
  {
    CheckFreeHole(Bounds(l, i, r, adj).0, Bounds(l, i, r, adj).1, r.size, r.alignment)
  }

  // The test of the searches.
  predicate Fits(l: seq<Node>, i: nat, r: Request, adj: Adjust)
    requires i < |l|
  {
    (adj.Adjust? ==> Bounds(l, i, r, adj).0 < Bounds(l, i, r, adj).1) && ScanFits(l, i, r, adj)
  }

  // The node that the insert helpers make, once their adjustments are recomputed.
  function Place(l: seq<Node>, i: nat, r: Request, adj: Adjust, id: Id): Node
    requires i < |l|
  {
    Node(id, AlignUp(Bounds(l, i, r, adj).0, r.alignment), r.size, r.color, false)
  }

  ghost predicate NewId(l: seq<Node>, id: Id) {
    forall k | 0 <= k < |l| :: l[k].id != id
  }

  // The node is aligned, in its hole and in the requested range, at the lowest such address; no BUG_ON of
  // the helpers can fire.
  ghost predicate WellPlaced(l: seq<Node>, i: nat, r: Request, adj: Adjust, x: Node) {
    && FitsHole(l, i, x) && Aligned(x.start, r.alignment) && x.size == r.size
    && x.start + x.size <= Bounds(l, i, r, adj).1
    && (forall a: int | Bounds(l, i, r, adj).0 <= a && Aligned(a, r.alignment) :: x.start <= a)
    && (r.ranged ==> r.lo <= x.start && x.start + x.size <= r.hi)
  }

  /** A hole that passes the search takes the node. */
  lemma PlaceIsWell(l: seq<Node>, i: nat, r: Request, adj: Adjust, id: Id)
    requires i < |l| && l[i].holeFollows && Shrinks(adj) && Fits(l, i, r, adj) && NewId(l, id)
    ensures WellPlaced(l, i, r, adj, Place(l, i, r, adj, id))
  {
    AlignUpAligned(Bounds(l, i, r, adj).0, r.alignment);
    forall a: int | Bounds(l, i, r, adj).0 <= a && Aligned(a, r.alignment)
      ensures AlignUp(Bounds(l, i, r, adj).0, r.alignment) <= a
    {
      AlignUpLeast(Bounds(l, i, r, adj).0, r.alignment, a);
    }
  }

  // A free, aligned block in the requested range.
  predicate Serves(l: seq<Node>, s: int, n: int, r: Request, a: int) {
    && FreeBlock(l, s, n, a, r.size) && Aligned(a, r.alignment)
    && (r.ranged ==> r.lo <= a && a + r.size <= r.hi)
  }

  ghost predicate SomeHoleFits(l: seq<Node>, r: Request, adj: Adjust) {
    exists i: nat | i < |l| :: l[i].holeFollows && Fits(l, i, r, adj)
  }

  lemma FitServes(l: seq<Node>, s: int, n: int, r: Request, i: nat)
    requires ListOk(l, s, n) && i < |l| && l[i].holeFollows && Fits(l, i, r, NoAdjust)
    ensures Serves(l, s, n, r, AlignUp(Bounds(l, i, r, NoAdjust).0, r.alignment))
  {
    var a := AlignUp(Bounds(l, i, r, NoAdjust).0, r.alignment);
    AlignUpAligned(Bounds(l, i, r, NoAdjust).0, r.alignment);
    EndsBelow(l, s, n, i);
    if i > 0 {
      OrderedAndDisjoint(l, s, n, 0, i);
    }
    forall j | 0 < j < |l| ensures a + r.size <= l[j].start || HoleStart(l, j) <= a {
      if j < i {
        OrderedAndDisjoint(l, s, n, j, i);
      } else if j > i + 1 {
        OrderedAndDisjoint(l, s, n, i + 1, j);
      }
    }
  }

  lemma ServesFit(l: seq<Node>, s: int, n: int, r: Request, a: int)
    requires ListOk(l, s, n) && r.size > 0 && Serves(l, s, n, r, a)
    ensures SomeHoleFits(l, r, NoAdjust)
  {
    var i := FreeBlockInHole(l, s, n, a, r.size);
    var b := Bounds(l, i, r, NoAdjust);
    CheckIsExact(b.0, b.1, r.size, r.alignment);
    assert Fits(l, i, r, NoAdjust);
  }

  /** Some hole passes the search exactly when there is a free aligned block of the size in the range. */
  lemma FitsIffFree(l: seq<Node>, s: int, n: int, r: Request)
    requires ListOk(l, s, n) && r.size > 0
    ensures SomeHoleFits(l, r, NoAdjust) <==> exists a: int :: Serves(l, s, n, r, a)
  {
    if SomeHoleFits(l, r, NoAdjust) {
      var i: nat :| i < |l| && l[i].holeFollows && Fits(l, i, r, NoAdjust);
      FitServes(l, s, n, r, i);
    }
    if a: int :| Serves(l, s, n, r, a) {
      ServesFit(l, s, n, r, a);
    }
  }
}
