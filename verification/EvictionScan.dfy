/**
 * The eviction scan of the range allocator.  Adding a block to the scan takes it out of the node list as
 * if it were free; removing the blocks again, last one first, repairs the list.
 */
module EvictionScan {
  import opened Lists
  import opened RangeList
  import opened RangeFit

  // A block on the scan: its node, the neighbour its list link still points to, and the saved flag.
  datatype Off = Off(node: Node, prev: Id, precedesHole: bool)

  // drm_mm_scan_add_block on the node at `k` changes the list as freeing the node would.
  function AddList(l: seq<Node>, k: nat): seq<Node>
    requires 0 < k < |l|
  {
    RemoveList(l, k)
  }

  function AddOff(l: seq<Node>, k: nat): Off
    requires 0 < k < |l|
  {
    Off(l[k], l[k - 1].id, l[k - 1].holeFollows)
  }

  // drm_mm_scan_remove_block, with the saved neighbour at `p`.
  function BackList(l: seq<Node>, p: nat, off: Off): seq<Node>
    requires p < |l|
  {
    l[..p] + [l[p].(holeFollows := off.precedesHole), off.node] + l[p + 1..]
  }

  // Whether the block at `k`, back on the list, is to be evicted.
  predicate Reported(l: seq<Node>, k: nat, hitStart: int, hitEnd: int)
    requires k < |l|
  {
    HoleEnd(l, k) > hitStart && l[k].start < hitEnd
  }

  /// Scanning and unwinding

  // How far a scan has come: the list it began with, and the blocks added since, by their place.
  datatype Scan = Begin(list: seq<Node>) | Add(before: Scan, k: nat)

  ghost predicate Good(c: Scan) {
    match c
    case Begin(_) => true
    case Add(before, k) => Good(before) && 0 < k < |Now(before)|
  }

  // The node list at this point of the scan.
  ghost function Now(c: Scan): seq<Node> {
    match c
    case Begin(l) => l
    case Add(before, k) => if 0 < k < |Now(before)| then AddList(Now(before), k) else []
  }

  ghost function Origin(c: Scan): seq<Node> {
    match c
    case Begin(l) => l
    case Add(before, _) => Origin(before)
  }

  ghost function TopId(c: Scan): Id
    requires Good(c) && c.Add?
  {
    Now(c.before)[c.k].id
  }

  // The blocks on the scan, the last one first.
  ghost function Ids(c: Scan): seq<Id>
    requires Good(c)
  {
    match c
    case Begin(_) => []
    case Add(before, _) => [TopId(c)] + Ids(before)
  }

  // What the blocks on the scan remember.
  ghost function Saved(c: Scan): map<Id, Off>
    requires Good(c)
  {
    match c
    case Begin(_) => map[]
    case Add(before, k) => Saved(before)[TopId(c) := AddOff(Now(before), k)]
  }

  /** Taking a block off the scan undoes putting it on: the whole list and every flag come back. */
  lemma BackUndoesAdd(l: seq<Node>, k: nat, p: nat)
    requires DistinctIds(l) && 0 < k < |l| && At(AddList(l, k), p, AddOff(l, k).prev)
    ensures p == k - 1 && BackList(AddList(l, k), p, AddOff(l, k)) == l
  {
    var l' := AddList(l, k);
    assert l'[p].id == l[if p < k then p else p + 1].id;
  }

  // What the blocks on the scan remember, the last one first.
  ghost function Offs(c: Scan): seq<Off>
    requires Good(c)
  {
    match c
    case Begin(_) => []
    case Add(before, k) => [AddOff(Now(before), k)] + Offs(before)
  }

  // Taking blocks off the scan one after the other, each next to the neighbour it remembers. A block whose
  // neighbour is itself off the list is linked to it, out of reach of the list, and no later step brings it
  // back; the list then stands as it is for one that is not restored.
  function Unwind(l: seq<Node>, offs: seq<Off>): seq<Node>
    decreases |offs|
  {
    if offs == [] then l
    else
      var p := IndexOf(l, offs[0].prev);
      if p < |l| then Unwind(BackList(l, p, offs[0]), offs[1..]) else l
  }

  /** However many blocks were added, taking them off in reverse restores the list and every flag. */
  lemma {:induction false} UnwindRestores(c: Scan, s: int, n: int)
    requires Good(c) && Sorted(Origin(c), s, n)
    ensures Unwind(Now(c), Offs(c)) == Origin(c)
  {
    if c.Add? {
      var l, k := Now(c.before), c.k;
      ScanSorted(c.before, s, n);
      ScanSorted(c, s, n);
      assert AddList(l, k)[k - 1].id == AddOff(l, k).prev;
      IndexIs(AddList(l, k), k - 1);
      BackUndoesAdd(l, k, k - 1);
      assert Offs(c)[1..] == Offs(c.before);
      UnwindRestores(c.before, s, n);
    }
  }

  /** Taking blocks off in the order they were added instead loses the order of the list. */
  lemma SameOrderCorrupts()
    ensures var l := [Node(HEAD, 8, -8, 0, false), Node(1, 0, 4, 0, false), Node(2, 4, 4, 0, false)];
            var l1 := AddList(l, 1);
            var l2 := AddList(l1, 1);
            ListOk(l, 0, 8) && !ListOk(BackList(BackList(l2, 0, AddOff(l, 1)), 0, AddOff(l1, 1)), 0, 8)
  {
    var l := [Node(HEAD, 8, -8, 0, false), Node(1, 0, 4, 0, false), Node(2, 4, 4, 0, false)];
    var l1 := AddList(l, 1);
    var l2 := AddList(l1, 1);
    assert ListOk(l, 0, 8) by {
      assert GapOk(l, 0) && GapOk(l, 1) && GapOk(l, 2);
    }
    var bad := BackList(BackList(l2, 0, AddOff(l, 1)), 0, AddOff(l1, 1));
    assert bad[1].id == 2 && bad[2].id == 1;
    assert !GapOk(bad, 1);
  }

  // The list of a scan: ordered as ever, but its flags no longer tell where the holes are.
  predicate Sorted(l: seq<Node>, s: int, n: int) {
    && |l| > 0 && l[0].id == HEAD && l[0].start == s + n && l[0].size == -n && 0 <= s && 0 <= n
    && DistinctIds(l) && Positive(l)
    && (forall i | 0 <= i < |l| :: InOrder(l, i))
  }

  predicate InOrder(l: seq<Node>, i: nat)
    requires i < |l|
  {
    HoleStart(l, i) <= HoleEnd(l, i)
  }

  lemma OkSorted(l: seq<Node>, s: int, n: int)
    requires ListOk(l, s, n) && Positive(l)
    ensures Sorted(l, s, n)
  {
    forall i | 0 <= i < |l| ensures InOrder(l, i) {
      assert GapOk(l, i);
    }
  }

  lemma AddSorted(l: seq<Node>, s: int, n: int, k: nat)
    requires Sorted(l, s, n) && 0 < k < |l|
    ensures Sorted(AddList(l, k), s, n)
  {
    var l' := AddList(l, k);
    forall i | 0 <= i < |l'| ensures InOrder(l', i) {
      assert InOrder(l, k - 1) && InOrder(l, k);
      if i < k - 1 {
        assert InOrder(l, i);
      } else if i > k - 1 {
        assert InOrder(l, i + 1);
      }
    }
  }

  lemma {:induction false} SortedOrder(l: seq<Node>, s: int, n: int, i: nat, j: nat)
    requires Sorted(l, s, n) && i < j < |l|
    ensures s <= HoleStart(l, i) && HoleEnd(l, i) <= l[j].start && HoleStart(l, j) <= s + n
    decreases j
  {
    assert InOrder(l, i) && InOrder(l, j - 1);
    SortedEnd(l, s, n, j);
    if i < j - 1 {
      SortedOrder(l, s, n, i, j - 1);
    } else if i > 0 {
      SortedOrder(l, s, n, i - 1, i);
      assert InOrder(l, i - 1);
    }
  }

  lemma {:induction false} SortedEnd(l: seq<Node>, s: int, n: int, j: nat)
    requires Sorted(l, s, n) && j < |l|
    ensures HoleStart(l, j) <= HoleEnd(l, j) <= s + n
    decreases |l| - j
  {
    assert InOrder(l, j);
    if j + 1 < |l| {
      SortedEnd(l, s, n, j + 1);
    }
  }

  lemma {:induction false} ScanSorted(c: Scan, s: int, n: int)
    requires Good(c) && Sorted(Origin(c), s, n)
    ensures Sorted(Now(c), s, n)
  {
    if c.Add? {
      ScanSorted(c.before, s, n);
      AddSorted(Now(c.before), s, n, c.k);
    }
  }

  // A block on the scan is not on the list.
  lemma {:induction false} SavedOffList(c: Scan, s: int, n: int, x: Id)
    requires Good(c) && Sorted(Origin(c), s, n) && x in Saved(c)
    ensures forall i | 0 <= i < |Now(c)| :: Now(c)[i].id != x
  {
    if c.Add? {
      ScanSorted(c.before, s, n);
      if x != TopId(c) {
        SavedOffList(c.before, s, n, x);
      }
    }
  }

  /** Without a hit no block is reported. */
  lemma NoHitNoReport(l: seq<Node>, s: int, n: int, k: nat)
    requires Sorted(l, s, n) && 0 < k < |l|
    ensures !Reported(l, k, 0, 0)
  {
    SortedOrder(l, s, n, 0, k);
    assert InOrder(l, 0);
  }

  /// The hole that was hit

  // In `l`, the hole between the node at `b` and the one at `c` (or the end of the range) is [lo, hi).
  // Other nodes may lie between them.
  predicate Window(l: seq<Node>, b: nat, c: nat, lo: int, hi: int) {
    && b < c <= |l|
    && HoleStart(l, b) == lo
    && hi == (if c < |l| then l[c].start else l[0].start)
  }

  predicate Inside(x: Node, lo: int, hi: int) {
    lo <= x.start && x.start + x.size <= hi
  }

  /** The nodes between the two neighbours are exactly the nodes inside the hole. */
  lemma BetweenIsInside(l: seq<Node>, s: int, n: int, b: nat, c: nat, lo: int, hi: int, k: nat)
    requires Sorted(l, s, n) && Window(l, b, c, lo, hi) && 0 < k < |l|
    ensures Inside(l[k], lo, hi) <==> b < k < c
  {
    SortedEnd(l, s, n, k);
    if k < b {
      SortedOrder(l, s, n, k, b);
      assert InOrder(l, k);
    } else if b < k {
      SortedOrder(l, s, n, b, k);
      assert InOrder(l, b);
      if c < k {
        SortedOrder(l, s, n, c, k);
        assert InOrder(l, c);
      } else if k < c < |l| {
        SortedOrder(l, s, n, k, c);
        assert InOrder(l, k);
      }
    }
  }

  /** A block that comes off the scan is reported exactly when it lies inside the hole that was hit. */
  lemma ReportedIsInside(l: seq<Node>, s: int, n: int, b: nat, c: nat, lo: int, hi: int, k: nat)
    requires Sorted(l, s, n) && Window(l, b, c, lo, hi) && 0 < k < |l| && k != b
    ensures Reported(l, k, lo, hi) <==> Inside(l[k], lo, hi)
  {
    BetweenIsInside(l, s, n, b, c, lo, hi, k);
    assert InOrder(l, k);
    if k < b {
      SortedOrder(l, s, n, k, b);
    } else if c < k {
      SortedOrder(l, s, n, c, k);
      assert InOrder(l, c);
    }
  }

  // Taking a block off the scan puts one node back somewhere; the neighbours of the hole stay.
  lemma WindowGrows(l: seq<Node>, k: nat, b: nat, c: nat, lo: int, hi: int)
    requires 0 < k < |l| && Window(AddList(l, k), b, c, lo, hi)
    ensures var b' := if b < k then b else b + 1;
            var c' := if c < k then c else c + 1;
            && Window(l, b', c', lo, hi) && k != b'
            && l[b'].id == AddList(l, k)[b].id && InfoOf(l[b']) == InfoOf(AddList(l, k)[b])
            && InfoOf(Behind(l, c')) == InfoOf(Behind(AddList(l, k), c))
  {
  }

  function Behind(l: seq<Node>, c: nat): Node
    requires 0 < c <= |l|
  {
    if c < |l| then l[c] else l[0]
  }

  // Along with the block that comes back, the nodes between the neighbours of the hole.
  lemma BetweenGrows(l: seq<Node>, s: int, n: int, k: nat, b: nat, c: nat, lo: int, hi: int, ids: seq<Id>)
    requires Sorted(l, s, n) && 0 < k < |l| && Window(AddList(l, k), b, c, lo, hi)
    requires ExactlyBetween(AddList(l, k), b, c, ids)
    ensures var b' := if b < k then b else b + 1;
            var c' := if c < k then c else c + 1;
            && Window(l, b', c', lo, hi)
            && ExactlyBetween(l, b', c', if Reported(l, k, lo, hi) then [l[k].id] + ids else ids)
  {
    var l' := AddList(l, k);
    var b' := if b < k then b else b + 1;
    var c' := if c < k then c else c + 1;
    WindowGrows(l, k, b, c, lo, hi);
    ReportedIsInside(l, s, n, b', c', lo, hi, k);
    BetweenIsInside(l, s, n, b', c', lo, hi, k);
    forall x: Id ensures Between(l, b', c', x) <==> Between(l', b, c, x) || (b' < k < c' && x == l[k].id) {
      BetweenAfterAdd(l, k, b, c, x);
    }
    assert l[k].id !in ids by {
      GoneFromBetween(l, k, b, c);
    }
    PushKeeps(ids, l[k].id);
  }

  lemma GoneFromBetween(l: seq<Node>, k: nat, b: nat, c: nat)
    requires DistinctIds(l) && 0 < k < |l| && b < c <= |l| - 1
    ensures !Between(AddList(l, k), b, c, l[k].id)
  {
    var l' := AddList(l, k);
    forall i | b < i < c ensures l'[i].id != l[k].id {
      assert l'[i].id == l[if i < k then i else i + 1].id;
    }
  }

  lemma BetweenAfterAdd(l: seq<Node>, k: nat, b: nat, c: nat, x: Id)
    requires 0 < k < |l| && b < c <= |l| - 1
    ensures var b' := if b < k then b else b + 1;
            var c' := if c < k then c else c + 1;
            Between(l, b', c', x) <==> Between(AddList(l, k), b, c, x) || (b' < k < c' && x == l[k].id)
  {
    var l' := AddList(l, k);
    var b' := if b < k then b else b + 1;
    var c' := if c < k then c else c + 1;
    if Between(l, b', c', x) {
      var i :| b' < i < c' && l[i].id == x;
      if i != k {
        assert l'[if i < k then i else i - 1].id == x;
      }
    }
    if Between(l', b, c, x) {
      var i :| b < i < c && l'[i].id == x;
      assert l[if i < k then i else i + 1].id == x;
    }
  }

  /// Evicting

  // The place of `x` in the list, or its length.
  function IndexOf(l: seq<Node>, x: Id): (i: nat)
    ensures i <= |l|
    ensures i < |l| ==> l[i].id == x
    ensures forall k | 0 <= k < i :: l[k].id != x
  {
    if l == [] then 0 else if l[0].id == x then 0 else 1 + IndexOf(l[1..], x)
  }

  // drm_mm_remove_node, one node after the other.
  function Evict(m: Mm, ids: seq<Id>): Mm
    decreases |ids|
  {
    if ids == [] then m
    else
      var i := IndexOf(m.list, ids[0]);
      if 0 < i < |m.list| then Evict(Remove(m, i), ids[1..]) else Evict(m, ids[1..])
  }

  predicate Between(l: seq<Node>, b: nat, c: nat, x: Id)
    requires b < c <= |l|
  {
    exists i | b < i < c :: l[i].id == x
  }

  ghost predicate ExactlyBetween(l: seq<Node>, b: nat, c: nat, ids: seq<Id>)
    requires b < c <= |l|
  {
    Distinct(ids) && forall x: Id :: x in ids <==> Between(l, b, c, x)
  }

  lemma IndexIs(l: seq<Node>, i: nat)
    requires DistinctIds(l) && i < |l|
    ensures IndexOf(l, l[i].id) == i
  {
  }

  lemma BetweenShrinks(l: seq<Node>, b: nat, c: nat, i: nat, ids: seq<Id>)
    requires DistinctIds(l) && b < i < c <= |l| && ids != [] && l[i].id == ids[0] && ExactlyBetween(l, b, c, ids)
    ensures ExactlyBetween(RemoveList(l, i), b, c - 1, ids[1..])
  {
    var l' := RemoveList(l, i);
    assert ids == [ids[0]] + ids[1..];
    forall x: Id ensures x in ids[1..] <==> Between(l', b, c - 1, x) {
      if x in ids[1..] {
        assert x in ids && x != ids[0];
        var k :| b < k < c && l[k].id == x;
        assert l'[if k < i then k else k - 1].id == x;
      }
      if Between(l', b, c - 1, x) {
        var k :| b < k < c - 1 && l'[k].id == x;
        assert l[if k < i then k else k + 1].id == x;
        assert x in ids && x != ids[0];
      }
    }
  }

  // `l'` is `l` without the nodes between `b` and `c`, and with a hole behind node `b`.
  ghost predicate Opened(l: seq<Node>, b: nat, c: nat, l': seq<Node>)
    requires b < c <= |l|
  {
    l' == l[..b] + [l[b].(holeFollows := l[b].holeFollows || b + 1 < c)] + l[c..]
  }

  lemma OpenedNone(l: seq<Node>, b: nat)
    requires b < |l|
    ensures Opened(l, b, b + 1, l)
  {
    assert l[b].(holeFollows := l[b].holeFollows || b + 1 < b + 1) == l[b];
    assert l == l[..b] + [l[b]] + l[b + 1..];
  }

  lemma OpenedStep(l: seq<Node>, b: nat, c: nat, i: nat, l': seq<Node>)
    requires b < i < c <= |l| && Opened(RemoveList(l, i), b, c - 1, l')
    ensures Opened(l, b, c, l')
  {
    var l1 := RemoveList(l, i);
    assert l1[..b] == l[..b];
    assert l1[c - 1..] == l[c..];
    assert l1[b].(holeFollows := true) == l[b].(holeFollows := true);
    assert b + 1 == c - 1 ==> i == b + 1;
  }

  lemma {:induction false} EvictKeeps(m: Mm, s: int, n: int, ids: seq<Id>)
    requires Ok(m, s, n) && Positive(m.list)
    ensures Ok(Evict(m, ids), s, n) && Positive(Evict(m, ids).list)
    decreases |ids|
  {
    if ids != [] {
      var i := IndexOf(m.list, ids[0]);
      if 0 < i < |m.list| {
        RemoveKeepsExactly(m, s, n, i);
        EvictKeeps(Remove(m, i), s, n, ids[1..]);
      } else {
        EvictKeeps(m, s, n, ids[1..]);
      }
    }
  }

  lemma {:induction false} EvictOpens(m: Mm, b: nat, c: nat, ids: seq<Id>)
    requires DistinctIds(m.list) && b < c <= |m.list| && ExactlyBetween(m.list, b, c, ids)
    ensures var m' := Evict(m, ids);
            Opened(m.list, b, c, m'.list) && (ids != [] ==> m'.stack != [] && m'.stack[0] == m.list[b].id)
    decreases |ids|
  {
    if ids == [] {
      NoneBetween(m.list, b, c);
      OpenedNone(m.list, b);
    } else {
      var i, m1 := EvictFirst(m, b, c, ids);
      EvictOpens(m1, b, c - 1, ids[1..]);
      OpenedStep(m.list, b, c, i, Evict(m1, ids[1..]).list);
    }
  }

  lemma EvictFirst(m: Mm, b: nat, c: nat, ids: seq<Id>) returns (i: nat, m1: Mm)
    requires DistinctIds(m.list) && b < c <= |m.list| && ids != [] && ExactlyBetween(m.list, b, c, ids)
    ensures b < i < c && m1.list == RemoveList(m.list, i) && Evict(m, ids) == Evict(m1, ids[1..])
    ensures DistinctIds(m1.list) && ExactlyBetween(m1.list, b, c - 1, ids[1..])
    ensures m1.list[b].id == m.list[b].id && m1.stack != [] && (|ids| == 1 ==> m1.stack[0] == m.list[b].id)
  {
    i := PickFirst(m.list, b, c, ids);
    m1 := Remove(m, i);
  }

  /** Evicting the nodes inside a hole, in any order, leaves exactly that hole, and leaves it on top of the
      stack; every other node stays as it was. */
  lemma EvictOpensHole(m: Mm, s: int, n: int, b: nat, c: nat, ids: seq<Id>)
    requires Ok(m, s, n) && Positive(m.list) && b < c <= |m.list| && ExactlyBetween(m.list, b, c, ids)
    ensures var m' := Evict(m, ids);
            && Ok(m', s, n) && Positive(m'.list) && Opened(m.list, b, c, m'.list)
            && (ids != [] ==> m'.stack != [] && m'.stack[0] == m.list[b].id)
  {
    EvictKeeps(m, s, n, ids);
    EvictOpens(m, b, c, ids);
  }

  lemma PickFirst(l: seq<Node>, b: nat, c: nat, ids: seq<Id>) returns (i: nat)
    requires DistinctIds(l) && b < c <= |l| && ids != [] && ExactlyBetween(l, b, c, ids)
    ensures b < i < c && IndexOf(l, ids[0]) == i && ExactlyBetween(RemoveList(l, i), b, c - 1, ids[1..])
    ensures |ids| == 1 ==> i == b + 1
  {
    assert ids[0] in ids;
    i :| b < i < c && l[i].id == ids[0];
    IndexIs(l, i);
    BetweenShrinks(l, b, c, i, ids);
    if |ids| == 1 {
      LastOne(l, b, c, i, ids);
    }
  }

  lemma OpenedWindow(l: seq<Node>, b: nat, c: nat, lo: int, hi: int, l': seq<Node>)
    requires Window(l, b, c, lo, hi) && Opened(l, b, c, l')
    ensures Window(l', b, b + 1, lo, hi) && HoleStart(l', b) == lo && HoleEnd(l', b) == hi
    ensures InfoOf(l'[b]) == InfoOf(l[b]) && InfoOf(Next(l', b)) == InfoOf(Behind(l, c))
  {
  }

  lemma NoneBetween(l: seq<Node>, b: nat, c: nat)
    requires b < c <= |l| && ExactlyBetween(l, b, c, [])
    ensures c == b + 1
  {
    if b + 1 < c {
      assert Between(l, b, c, l[b + 1].id);
    }
  }

  lemma LastOne(l: seq<Node>, b: nat, c: nat, i: nat, ids: seq<Id>)
    requires DistinctIds(l) && b < i < c <= |l| && |ids| == 1 && ids[0] == l[i].id && ExactlyBetween(l, b, c, ids)
    ensures i == b + 1 && c == b + 2
  {
    assert Between(l, b, c, l[b + 1].id) && Between(l, b, c, l[c - 1].id);
  }

  /** The search that follows finds the hole on its first try: what the scan saw is what is there. */
  lemma FirstTryFits(l: seq<Node>, p: nat, l': seq<Node>, b: nat, r: Request, adj: Adjust)
    requires p < |l| && b < |l'| && r.size > 0
    requires InfoOf(l'[b]) == InfoOf(l[p]) && InfoOf(Next(l', b)) == InfoOf(Next(l, p))
    ensures Fits(l', b, r, adj) <==> ScanFits(l, p, r, adj)
  {
    AlignUpAligned(Bounds(l, p, r, adj).0, r.alignment);
  }

  /// The whole scan

  // The blocks reported while the scan is unwound; each goes to the front of the list of victims.
  ghost function Victims(c: Scan, lo: int, hi: int, found: seq<Id>): seq<Id>
    requires Good(c)
  {
    match c
    case Begin(_) => found
    case Add(before, k) =>
      Victims(before, lo, hi, if Reported(Now(before), k, lo, hi) then [TopId(c)] + found else found)
  }

  lemma {:induction false} VictimsAreBetween(c: Scan, s: int, n: int, b: nat, e: nat, lo: int, hi: int, found: seq<Id>)
    returns (b0: nat, e0: nat)
    requires Good(c) && Sorted(Origin(c), s, n)
    requires Window(Now(c), b, e, lo, hi) && ExactlyBetween(Now(c), b, e, found)
    ensures Window(Origin(c), b0, e0, lo, hi) && ExactlyBetween(Origin(c), b0, e0, Victims(c, lo, hi, found))
    ensures Origin(c)[b0].id == Now(c)[b].id && InfoOf(Origin(c)[b0]) == InfoOf(Now(c)[b])
    ensures InfoOf(Behind(Origin(c), e0)) == InfoOf(Behind(Now(c), e))
    ensures e0 - b0 >= e - b && (c.Add? && b + 1 == e == c.k ==> e0 > b0 + 1)
  {
    if c.Begin? {
      b0, e0 := b, e;
    } else {
      var l, k := Now(c.before), c.k;
      ScanSorted(c.before, s, n);
      BetweenGrows(l, s, n, k, b, e, lo, hi, found);
      WindowGrows(l, k, b, e, lo, hi);
      b0, e0 := VictimsAreBetween(c.before, s, n, if b < k then b else b + 1, if e < k then e else e + 1, lo, hi,
        if Reported(l, k, lo, hi) then [TopId(c)] + found else found);
    }
  }

  // The scan has just found that the hole around its last block serves the request.
  ghost predicate Hit(c: Scan, r: Request, adj: Adjust, lo: int, hi: int)
    requires Good(c)
  {
    && c.Add?
    && lo == HoleStart(Now(c), c.k - 1) && hi == HoleEnd(Now(c), c.k - 1)
    && ScanFits(Now(c), c.k - 1, r, adj)
  }

  /** After a hit, evicting the reported blocks in any order leaves exactly the hole that was hit, on top of
      the stack, so that the next search with the same request succeeds on the first hole it looks at. */
  lemma HitThenEvict(c: Scan, stack: seq<Id>, s: int, n: int, r: Request, adj: Adjust, lo: int, hi: int, order: seq<Id>)
    returns (b: nat)
    requires Good(c) && Ok(Mm(Origin(c), stack), s, n) && Positive(Origin(c)) && r.size > 0 && Hit(c, r, adj, lo, hi)
    requires Distinct(order) && forall x: Id :: x in order <==> x in Victims(c, lo, hi, [])
    ensures var m := Evict(Mm(Origin(c), stack), order);
            && Ok(m, s, n) && Positive(m.list)
            && b < |m.list| && m.stack != [] && m.stack[0] == m.list[b].id
            && HoleStart(m.list, b) == lo && HoleEnd(m.list, b) == hi
            && Fits(m.list, b, r, adj)
  {
    var l, m := Now(c), Mm(Origin(c), stack);
    OkSorted(Origin(c), s, n);
    var e;
    b, e := VictimsOfHit(c, s, n, lo, hi);
    EvictOpensHole(m, s, n, b, e, order);
    if order == [] {
      NoneBetween(Origin(c), b, e);
      assert false;
    }
    var m' := Evict(m, order);
    OpenedWindow(Origin(c), b, e, lo, hi, m'.list);
    FirstTryFits(l, c.k - 1, m'.list, b, r, adj);
  }

  lemma VictimsOfHit(c: Scan, s: int, n: int, lo: int, hi: int) returns (b: nat, e: nat)
    requires Good(c) && c.Add? && Sorted(Origin(c), s, n)
    requires lo == HoleStart(Now(c), c.k - 1) && hi == HoleEnd(Now(c), c.k - 1)
    ensures Window(Origin(c), b, e, lo, hi) && ExactlyBetween(Origin(c), b, e, Victims(c, lo, hi, []))
    ensures e > b + 1
    ensures InfoOf(Origin(c)[b]) == InfoOf(Now(c)[c.k - 1]) && InfoOf(Behind(Origin(c), e)) == InfoOf(Next(Now(c), c.k - 1))
  {
    assert ExactlyBetween(Now(c), c.k - 1, c.k, []);
    b, e := VictimsAreBetween(c, s, n, c.k - 1, c.k, lo, hi, []);
  }

  // No block of the scan has made a hole that serves the request.
  ghost predicate Missed(c: Scan, r: Request, adj: Adjust)
    requires Good(c)
  {
    c.Add? ==> Missed(c.before, r, adj) && !ScanFits(Now(c), c.k - 1, r, adj)
  }

  ghost predicate NoGapFits(l: seq<Node>, r: Request, adj: Adjust) {
    forall i: nat | i < |l| :: !ScanFits(l, i, r, adj)
  }

  /** A scan without a hit has missed nothing: if no hole would do to begin with, then none would do even
      if every block on the scan were evicted. */
  lemma {:induction false} MissIsComplete(c: Scan, r: Request, adj: Adjust)
    requires Good(c) && Missed(c, r, adj) && NoGapFits(Origin(c), r, adj)
    ensures NoGapFits(Now(c), r, adj)
  {
    if c.Add? {
      MissIsComplete(c.before, r, adj);
      var l, l' := Now(c.before), Now(c);
      forall i: nat | i < |l'| ensures !ScanFits(l', i, r, adj) {
        if i != c.k - 1 {
          var q := if i < c.k then i else i + 1;
          assert !ScanFits(l, q, r, adj);
          assert InfoOf(l'[i]) == InfoOf(l[q]) && InfoOf(Next(l', i)) == InfoOf(Next(l, q));
          assert Bounds(l', i, r, adj) == Bounds(l, q, r, adj);
        }
      }
    }
  }

  // An allocated node, not the head.
  predicate Listed(l: seq<Node>, x: Id) {
    exists i | 0 < i < |l| :: l[i].id == x
  }

  lemma ListedIndex(l: seq<Node>, x: Id)
    requires DistinctIds(l) && Listed(l, x)
    ensures 0 < IndexOf(l, x) < |l|
  {
    var i :| 0 < i < |l| && l[i].id == x;
    IndexIs(l, i);
  }

  lemma AddKeepsListed(l: seq<Node>, k: nat, x: Id)
    requires 0 < k < |l| && Listed(l, x) && x != l[k].id
    ensures Listed(AddList(l, k), x)
  {
    var j :| 0 < j < |l| && l[j].id == x;
    assert AddList(l, k)[if j < k then j else j - 1].id == x;
  }

  // A block is on the list or on the scan.
  lemma {:induction false} ListedOrScanned(c: Scan, x: Id)
    requires Good(c) && Listed(Origin(c), x)
    ensures x in Ids(c) || Listed(Now(c), x)
  {
    if c.Add? {
      ListedOrScanned(c.before, x);
      if x !in Ids(c) {
        assert x != Ids(c)[0];
        AddKeepsListed(Now(c.before), c.k, x);
      }
    }
  }

  // Only blocks on the scan are reported.
  lemma {:induction false} VictimsScanned(c: Scan, lo: int, hi: int, found: seq<Id>, x: Id)
    requires Good(c) && x in Victims(c, lo, hi, found)
    ensures x in found || x in Ids(c)
  {
    if c.Add? {
      VictimsScanned(c.before, lo, hi, if Reported(Now(c.before), c.k, lo, hi) then [TopId(c)] + found else found, x);
    }
  }

  lemma {:induction false} IdsAreSaved(c: Scan, x: Id)
    requires Good(c)
    ensures x in Ids(c) <==> x in Saved(c)
  {
    if c.Add? {
      IdsAreSaved(c.before, x);
    }
  }

  // A block is on the scan only once.
  lemma TopOnce(c: Scan, s: int, n: int)
    requires Good(c) && c.Add? && Sorted(Origin(c), s, n)
    ensures TopId(c) !in Ids(c.before)
  {
    IdsAreSaved(c.before, TopId(c));
    if TopId(c) in Saved(c.before) {
      SavedOffList(c.before, s, n, TopId(c));
      assert false;
    }
  }

  // The blocks on the scan in the order they were added.
  ghost function Added(c: Scan): seq<Id>
    requires Good(c)
  {
    if c.Begin? then [] else Added(c.before) + [TopId(c)]
  }

  lemma {:induction false} AddedAreIds(c: Scan, x: Id)
    requires Good(c)
    ensures x in Added(c) <==> x in Ids(c)
  {
    if c.Add? {
      AddedAreIds(c.before, x);
    }
  }

  lemma {:induction false} EvictLast(m: Mm, ids: seq<Id>, x: Id)
    ensures Evict(m, ids + [x]) == Evict(Evict(m, ids), [x])
    decreases |ids|
  {
    if ids == [] {
      assert [] + [x] == [x];
    } else {
      var i := IndexOf(m.list, ids[0]);
      assert (ids + [x])[1..] == ids[1..] + [x];
      EvictLast(if 0 < i < |m.list| then Remove(m, i) else m, ids[1..], x);
    }
  }

  /** The list of a scan is the list that evicting its blocks would leave. */
  lemma {:induction false} ScanIsEviction(c: Scan, stack: seq<Id>, s: int, n: int)
    requires Good(c) && Sorted(Origin(c), s, n)
    ensures Evict(Mm(Origin(c), stack), Added(c)).list == Now(c)
  {
    if c.Add? {
      ScanIsEviction(c.before, stack, s, n);
      ScanSorted(c.before, s, n);
      IndexIs(Now(c.before), c.k);
      EvictLast(Mm(Origin(c), stack), Added(c.before), TopId(c));
    }
  }
}
