/**
 * The DRM range allocator as values: an address-ordered list of nodes behind a head node, and a stack of
 * the nodes that a hole follows.  A hole is not stored; it is the gap between a node and the next one.
 */
module RangeList {
  import opened Arithmetic
  import opened Lists

  type Id = nat

  const HEAD: Id := 0

  datatype Node = Node(id: Id, start: int, size: int, color: int, holeFollows: bool)

  // `list` begins with the head node and is circular.
  datatype Mm = Mm(list: seq<Node>, stack: seq<Id>)

  function HoleStart(l: seq<Node>, i: nat): int
    requires i < |l|
  {
    l[i].start + l[i].size
  }

  function HoleEnd(l: seq<Node>, i: nat): int
    requires i < |l|
  {
    if i + 1 < |l| then l[i + 1].start else l[0].start
  }

  /// The invariant

  predicate GapOk(l: seq<Node>, i: nat)
    requires i < |l|
  {
    HoleStart(l, i) <= HoleEnd(l, i) && (l[i].holeFollows <==> HoleStart(l, i) < HoleEnd(l, i))
  }

  predicate DistinctIds(l: seq<Node>) {
    forall i, j | 0 <= i < j < |l| :: l[i].id != l[j].id
  }

  // The head node starts where the managed range [s, s + n) ends and reaches back to where it starts.
  predicate ListOk(l: seq<Node>, s: int, n: int) {
    && |l| > 0 && l[0].id == HEAD && l[0].start == s + n && l[0].size == -n && 0 <= s && 0 <= n
    && DistinctIds(l)
    && (forall i | 0 <= i < |l| :: GapOk(l, i))
    && (forall i | 0 < i < |l| :: l[i].size >= 0)
  }

  predicate Owns(l: seq<Node>, x: Id) {
    exists i | 0 <= i < |l| :: l[i].id == x && l[i].holeFollows
  }

  ghost predicate StackOk(l: seq<Node>, stack: seq<Id>) {
    Distinct(stack) && forall x: Id :: x in stack <==> Owns(l, x)
  }

  ghost predicate Ok(m: Mm, s: int, n: int) {
    ListOk(m.list, s, n) && StackOk(m.list, m.stack)
  }

  predicate Positive(l: seq<Node>) {
    forall i | 0 < i < |l| :: l[i].size > 0
  }

  /** Nodes are ordered by address, disjoint, and inside the managed range. */
  lemma {:induction false} OrderedAndDisjoint(l: seq<Node>, s: int, n: int, i: nat, j: nat)
    requires ListOk(l, s, n) && i < j < |l|
    ensures s <= HoleStart(l, i) <= l[j].start && HoleStart(l, j) <= s + n
    decreases j, |l|
  {
    assert GapOk(l, j - 1) && GapOk(l, j);
    if i < j - 1 {
      OrderedAndDisjoint(l, s, n, i, j - 1);
    } else if i > 0 {
      OrderedAndDisjoint(l, s, n, i - 1, i);
    }
    EndsBelow(l, s, n, j);
  }

  lemma {:induction false} EndsBelow(l: seq<Node>, s: int, n: int, j: nat)
    requires ListOk(l, s, n) && j < |l|
    ensures HoleStart(l, j) <= HoleEnd(l, j) <= s + n
    decreases |l| - j
  {
    assert GapOk(l, j);
    if j + 1 < |l| {
      EndsBelow(l, s, n, j + 1);
      assert GapOk(l, j + 1);
    }
  }

  // Memory of the first `k` nodes, and the holes behind them (drm_mm_debug_table).
  function Used(l: seq<Node>, k: nat): int
    requires k <= |l|
  {
    if k <= 1 then 0 else Used(l, k - 1) + l[k - 1].size
  }

  function Free(l: seq<Node>, k: nat): int
    requires k <= |l|
  {
    if k == 0 then 0
    else Free(l, k - 1) + (if l[k - 1].holeFollows then HoleEnd(l, k - 1) - HoleStart(l, k - 1) else 0)
  }

  /** Used and free memory add up to the managed size. */
  lemma TotalsAddUp(l: seq<Node>, s: int, n: int)
    requires ListOk(l, s, n)
    ensures Used(l, |l|) + Free(l, |l|) == n
  {
    TotalsTo(l, s, n, |l|);
  }

  lemma {:induction false} TotalsTo(l: seq<Node>, s: int, n: int, k: nat)
    requires ListOk(l, s, n) && 0 < k <= |l|
    ensures Used(l, k) + Free(l, k) == HoleEnd(l, k - 1) - s
  {
    assert GapOk(l, k - 1);
    if k > 1 {
      TotalsTo(l, s, n, k - 1);
    }
  }

  /// Inserting and removing

  // The place of the node named `x`.
  predicate At(l: seq<Node>, i: nat, x: Id) {
    i < |l| && l[i].id == x
  }

  // Puts `n` into the hole behind node `i`, as all three insertions do once they know where it goes.
  function InsertList(l: seq<Node>, i: nat, n: Node): seq<Node>
    requires i < |l|
  {
    var behind := n.(holeFollows := HoleStart([n], 0) < HoleEnd(l, i));
    l[..i] + [l[i].(holeFollows := if n.start == HoleStart(l, i) then false else l[i].holeFollows), behind] + l[i + 1..]
  }

  function InsertStack(m: Mm, i: nat, n: Node): seq<Id>
    requires i < |m.list|
  {
    var rest := if n.start == HoleStart(m.list, i) then Without(m.stack, m.list[i].id) else m.stack;
    if n.start + n.size < HoleEnd(m.list, i) then [n.id] + rest else rest
  }

  function Insert(m: Mm, i: nat, n: Node): Mm
    requires i < |m.list|
  {
    Mm(InsertList(m.list, i, n), InsertStack(m, i, n))
  }

  // drm_mm_remove_node.
  function RemoveList(l: seq<Node>, i: nat): seq<Node>
    requires 0 < i < |l|
  {
    l[..i - 1] + [l[i - 1].(holeFollows := true)] + l[i + 1..]
  }

  function RemoveStack(m: Mm, i: nat): seq<Id>
    requires 0 < i < |m.list|
  {
    var rest := if m.list[i].holeFollows then Without(m.stack, m.list[i].id) else m.stack;
    var prev := m.list[i - 1];
    [prev.id] + (if prev.holeFollows then Without(rest, prev.id) else rest)
  }

  function Remove(m: Mm, i: nat): Mm
    requires 0 < i < |m.list|
  {
    Mm(RemoveList(m.list, i), RemoveStack(m, i))
  }

  ghost predicate FitsHole(l: seq<Node>, i: nat, n: Node) {
    && i < |l| && l[i].holeFollows
    && HoleStart(l, i) <= n.start && 0 <= n.size && n.start + n.size <= HoleEnd(l, i)
    && (forall k | 0 <= k < |l| :: l[k].id != n.id)
  }

  lemma InsertListOk(l: seq<Node>, s: int, n: int, i: nat, x: Node)
    requires ListOk(l, s, n) && FitsHole(l, i, x)
    ensures ListOk(InsertList(l, i, x), s, n)
  {
    var l' := InsertList(l, i, x);
    forall k | 0 <= k < |l'| ensures GapOk(l', k) {
      if k < i {
        assert GapOk(l, k);
      } else if k > i + 1 {
        assert GapOk(l, k - 1);
      } else {
        assert GapOk(l, i);
      }
    }
  }

  lemma InsertOwns(l: seq<Node>, i: nat, x: Node, y: Id)
    requires DistinctIds(l) && FitsHole(l, i, x)
    ensures Owns(InsertList(l, i, x), y) <==>
              if y == x.id then x.start + x.size < HoleEnd(l, i)
              else Owns(l, y) && !(x.start == HoleStart(l, i) && y == l[i].id)
  {
    var l' := InsertList(l, i, x);
    if Owns(l, y) {
      var k :| 0 <= k < |l| && l[k].id == y && l[k].holeFollows;
      assert l'[if k <= i then k else k + 1].id == y;
    }
    assert l'[i + 1].id == x.id;
    if Owns(l', y) {
      var k :| 0 <= k < |l'| && l'[k].id == y && l'[k].holeFollows;
      if k <= i {
        assert l[k].id == y;
      } else if k > i + 1 {
        assert l[k - 1].id == y;
      }
    }
  }

  /** Every insertion into a hole that fits keeps the allocator well formed. */
  lemma InsertKeeps(m: Mm, s: int, n: int, i: nat, x: Node)
    requires Ok(m, s, n) && FitsHole(m.list, i, x)
    ensures Ok(Insert(m, i, x), s, n)
  {
    InsertListOk(m.list, s, n, i, x);
    WithoutDrops(m.stack, m.list[i].id);
    var rest := if x.start == HoleStart(m.list, i) then Without(m.stack, m.list[i].id) else m.stack;
    assert x.id !in rest by {
      assert !Owns(m.list, x.id);
    }
    PushKeeps(rest, x.id);
    forall y: Id ensures y in InsertStack(m, i, x) <==> Owns(InsertList(m.list, i, x), y) {
      InsertOwns(m.list, i, x, y);
      assert y in m.stack <==> Owns(m.list, y);
    }
  }

  // The condition under which removing node `i` leaves a hole behind its predecessor.
  predicate LeavesHole(l: seq<Node>, i: nat)
    requires 0 < i < |l|
  {
    l[i].size > 0 || l[i].holeFollows || l[i - 1].holeFollows
  }

  lemma RemoveListOk(l: seq<Node>, s: int, n: int, i: nat)
    requires ListOk(l, s, n) && 0 < i < |l|
    ensures ListOk(RemoveList(l, i), s, n) <==> LeavesHole(l, i)
  {
    var l' := RemoveList(l, i);
    assert GapOk(l, i - 1) && GapOk(l, i);
    assert HoleStart(l', i - 1) == HoleStart(l, i - 1) && HoleEnd(l', i - 1) == HoleEnd(l, i);
    if LeavesHole(l, i) {
      forall k | 0 <= k < |l'| ensures GapOk(l', k) {
        if k < i - 1 {
          assert GapOk(l, k);
        } else if k > i - 1 {
          assert GapOk(l, k + 1);
        }
      }
    } else {
      assert !GapOk(l', i - 1);
    }
  }

  lemma RemoveOwns(l: seq<Node>, i: nat, y: Id)
    requires DistinctIds(l) && 0 < i < |l|
    ensures Owns(RemoveList(l, i), y) <==> y == l[i - 1].id || (Owns(l, y) && y != l[i].id)
  {
    var l' := RemoveList(l, i);
    assert l'[i - 1].id == l[i - 1].id && l'[i - 1].holeFollows;
    if Owns(l, y) {
      var k :| 0 <= k < |l| && l[k].id == y && l[k].holeFollows;
      if k != i {
        assert l'[if k < i then k else k - 1].id == y;
      }
    }
    if Owns(l', y) {
      var k :| 0 <= k < |l'| && l'[k].id == y && l'[k].holeFollows;
      if k < i - 1 {
        assert l[k].id == y;
      } else if k > i - 1 {
        assert l[k + 1].id == y;
      }
    }
  }

  lemma RemoveStackOk(m: Mm, i: nat)
    requires DistinctIds(m.list) && StackOk(m.list, m.stack) && 0 < i < |m.list|
    ensures StackOk(RemoveList(m.list, i), RemoveStack(m, i))
  {
    var node, prev := m.list[i], m.list[i - 1];
    var rest := if node.holeFollows then Without(m.stack, node.id) else m.stack;
    WithoutDrops(m.stack, node.id);
    WithoutDrops(rest, prev.id);
    OwnsIff(m.list, i);
    OwnsIff(m.list, i - 1);
    PushKeeps(if prev.holeFollows then Without(rest, prev.id) else rest, prev.id);
    forall y: Id ensures y in RemoveStack(m, i) <==> Owns(RemoveList(m.list, i), y) {
      RemoveOwns(m.list, i, y);
      assert y in m.stack <==> Owns(m.list, y);
    }
  }

  lemma OwnsIff(l: seq<Node>, i: nat)
    requires DistinctIds(l) && i < |l|
    ensures Owns(l, l[i].id) <==> l[i].holeFollows
  {
  }

  /** Removing a node keeps the allocator well formed exactly when something is left free: a node of
      size 0 with no hole on either side leaves its predecessor marked as followed by an empty hole. */
  lemma RemoveKeepsExactly(m: Mm, s: int, n: int, i: nat)
    requires Ok(m, s, n) && 0 < i < |m.list|
    ensures Ok(Remove(m, i), s, n) <==> LeavesHole(m.list, i)
  {
    RemoveListOk(m.list, s, n, i);
    RemoveStackOk(m, i);
  }

  /** Removing what was just inserted restores the list; the hole is now the first one tried. */
  lemma RemoveUndoesInsert(m: Mm, i: nat, x: Node)
    requires FitsHole(m.list, i, x)
    ensures RemoveList(InsertList(m.list, i, x), i + 1) == m.list
    ensures Remove(Insert(m, i, x), i + 1).stack[0] == m.list[i].id
  {
  }

  // drm_mm_init.
  function Init(s: int, n: int): Mm {
    Mm([Node(HEAD, s + n, s - (s + n), 0, true)], [HEAD])
  }

  /** A fresh allocator is well formed exactly when it manages something. */
  lemma InitOkExactly(s: int, n: int)
    requires 0 <= s && 0 <= n
    ensures Ok(Init(s, n), s, n) <==> n > 0
  {
    var l := Init(s, n).list;
    assert l[0].id == HEAD;
    assert GapOk(l, 0) <==> n > 0;
  }

  // What users of the allocator do to it, at any place and in any order.
  datatype Op = Put(i: nat, x: Node) | Take(i: nat)

  ghost function Do(m: Mm, op: Op): Mm {
    match op
    case Put(i, x) => if FitsHole(m.list, i, x) && x.size > 0 then Insert(m, i, x) else m
    case Take(i) => if 0 < i < |m.list| then Remove(m, i) else m
  }

  ghost function Run(m: Mm, ops: seq<Op>): Mm
    decreases |ops|
  {
    if ops == [] then m else Do(Run(m, ops[..|ops| - 1]), ops[|ops| - 1])
  }

  /** Over every run of insertions of positive size and removals, the allocator stays well formed and its used
      and free memory add up. */
  lemma {:induction false} RunKeeps(s: int, n: int, ops: seq<Op>)
    requires 0 <= s && 0 < n
    ensures var m := Run(Init(s, n), ops);
            Ok(m, s, n) && Positive(m.list) && Used(m.list, |m.list|) + Free(m.list, |m.list|) == n
    decreases |ops|
  {
    if ops == [] {
      InitOkExactly(s, n);
    } else {
      RunKeeps(s, n, ops[..|ops| - 1]);
      DoKeeps(Run(Init(s, n), ops[..|ops| - 1]), s, n, ops[|ops| - 1]);
    }
    TotalsAddUp(Run(Init(s, n), ops).list, s, n);
  }

  lemma DoKeeps(m: Mm, s: int, n: int, op: Op)
    requires Ok(m, s, n) && Positive(m.list)
    ensures Ok(Do(m, op), s, n) && Positive(Do(m, op).list)
  {
    match op
    case Put(i, x) =>
      if FitsHole(m.list, i, x) && x.size > 0 {
        InsertKeeps(m, s, n, i, x);
      }
    case Take(i) =>
      if 0 < i < |m.list| {
        RemoveKeepsExactly(m, s, n, i);
      }
  }

  /** A node of size 0 can be inserted and then taken out so that the allocator is no longer well formed. */
  lemma EmptyNodeBreaks()
    ensures var z, a := Node(1, 0, 0, 0, false), Node(2, 0, 4, 0, false);
            var m := Init(0, 4);
            var m1 := Insert(m, 0, z);
            && FitsHole(m.list, 0, z) && FitsHole(m1.list, 1, a)
            && Ok(Insert(m1, 1, a), 0, 4) && !Ok(Remove(Insert(m1, 1, a), 1), 0, 4)
  {
    var z, a := Node(1, 0, 0, 0, false), Node(2, 0, 4, 0, false);
    var m := Init(0, 4);
    InitOkExactly(0, 4);
    InsertKeeps(m, 0, 4, 0, z);
    InsertKeeps(Insert(m, 0, z), 0, 4, 1, a);
    RemoveKeepsExactly(Insert(Insert(m, 0, z), 1, a), 0, 4, 1);
  }

  /// What fits where

  // `alignment` 0 asks for nothing.
  predicate Aligned(a: int, alignment: nat) {
    alignment == 0 || a % alignment == 0
  }

  function AlignUp(start: int, alignment: nat): int {
    if alignment == 0 || start % alignment == 0 then start else start + (alignment - start % alignment)
  }

  // check_free_hole.
  predicate CheckFreeHole(start: int, end: int, size: nat, alignment: nat) {
    end - start >= size && end >= AlignUp(start, alignment) + size
  }

  lemma AlignUpLeast(start: int, alignment: nat, a: int)
    requires start <= a && Aligned(a, alignment)
    ensures Aligned(AlignUp(start, alignment), alignment) && start <= AlignUp(start, alignment) <= a
  {
    AlignUpAligned(start, alignment);
    if AlignUp(start, alignment) > a {
      var up := AlignUp(start, alignment);
      var q, p := up / alignment, a / alignment;
      assert up == q * alignment && a == p * alignment;
      assert q > p;
      assert up >= a + alignment by { MulGap(p, q, alignment); }
      assert false;
    }
  }

  lemma AlignUpAligned(start: int, alignment: nat)
    ensures Aligned(AlignUp(start, alignment), alignment)
    ensures start <= AlignUp(start, alignment) && (alignment > 0 ==> AlignUp(start, alignment) < start + alignment)
  {
    if alignment > 0 && start % alignment != 0 {
      var q := start / alignment;
      assert start == q * alignment + start % alignment;
      assert AlignUp(start, alignment) == (q + 1) * alignment;
      MulMod(q + 1, alignment);
    }
  }

  /** check_free_hole says yes exactly when an aligned block of the size fits between the bounds. */
  lemma CheckIsExact(start: int, end: int, size: nat, alignment: nat)
    ensures CheckFreeHole(start, end, size, alignment)
            <==> exists a: int :: Aligned(a, alignment) && start <= a && a + size <= end
  {
    AlignUpAligned(start, alignment);
    if CheckFreeHole(start, end, size, alignment) {
      assert Aligned(AlignUp(start, alignment), alignment);
    }
    if a: int :| Aligned(a, alignment) && start <= a && a + size <= end {
      AlignUpLeast(start, alignment, a);
    }
  }

  // A free stretch of memory: inside the managed range and off every node.
  predicate FreeBlock(l: seq<Node>, s: int, n: int, a: int, size: nat) {
    && s <= a && a + size <= s + n
    && (forall j | 0 < j < |l| :: a + size <= l[j].start || HoleStart(l, j) <= a)
  }

  /** The holes are all the free memory: a free stretch lies inside a single hole. */
  lemma FreeBlockInHole(l: seq<Node>, s: int, n: int, a: int, size: nat) returns (i: nat)
    requires ListOk(l, s, n) && size > 0 && FreeBlock(l, s, n, a, size)
    ensures i < |l| && l[i].holeFollows && HoleStart(l, i) <= a && a + size <= HoleEnd(l, i)
  {
    i := 0;
    while i + 1 < |l| && HoleStart(l, i + 1) <= a
      invariant i < |l| && HoleStart(l, i) <= a
    {
      i := i + 1;
    }
    assert GapOk(l, i);
  }
}
