/**
 * Taking blocks off the eviction scan in the order in which they were added, as the comment on
 * drm_mm_scan_remove_block demands, instead of in reverse.
 */
module ScanOrder {
  import opened RangeList
  import opened EvictionScan

  /// The list during a scan

  // A hole now follows the last node.
  function Raise(l: seq<Node>): seq<Node> {
    if l == [] then [] else l[..|l| - 1] + [l[|l| - 1].(holeFollows := true)]
  }

  // The list without the blocks `off`, and a hole wherever one of them was.
  function Strip(l: seq<Node>, off: seq<Id>): seq<Node> {
    if l == [] then []
    else
      var front, last := Strip(l[..|l| - 1], off), l[|l| - 1];
      if last.id in off then Raise(front) else front + [last]
  }

  lemma {:induction false} StripSame(l: seq<Node>, off: seq<Id>, off': seq<Id>)
    requires forall i | 0 <= i < |l| :: l[i].id in off <==> l[i].id in off'
    ensures Strip(l, off) == Strip(l, off')
  {
    if l != [] {
      StripSame(l[..|l| - 1], off, off');
    }
  }

  lemma {:induction false} StripNothing(l: seq<Node>)
    ensures Strip(l, []) == l
  {
    if l != [] {
      StripNothing(l[..|l| - 1]);
    }
  }

  // What is left are nodes of the list.
  lemma {:induction false} StripFrom(l: seq<Node>, off: seq<Id>, k: nat) returns (i: nat)
    requires k < |Strip(l, off)|
    ensures i < |l| && l[i].id == Strip(l, off)[k].id && l[i].id !in off
  {
    var front, last := Strip(l[..|l| - 1], off), l[|l| - 1];
    if k < |front| {
      i := StripFrom(l[..|l| - 1], off, k);
    } else {
      i := |l| - 1;
    }
  }

  lemma {:induction false} StripDistinct(l: seq<Node>, off: seq<Id>)
    requires DistinctIds(l)
    ensures DistinctIds(Strip(l, off))
  {
    if l != [] {
      var front := Strip(l[..|l| - 1], off);
      StripDistinct(l[..|l| - 1], off);
      forall k | 0 <= k < |front| ensures front[k].id != l[|l| - 1].id {
        var i := StripFrom(l[..|l| - 1], off, k);
      }
    }
  }

  lemma RaiseConcat(a: seq<Node>, b: seq<Node>)
    requires b != []
    ensures Raise(a + b) == a + Raise(b)
  {
  }

  lemma PushConcat(a: seq<Node>, b: seq<Node>, x: Node)
    ensures (a + b) + [x] == a + (b + [x])
  {
  }

  lemma StripPush(l: seq<Node>, x: Node, off: seq<Id>)
    ensures Strip(l + [x], off) == if x.id in off then Raise(Strip(l, off)) else Strip(l, off) + [x]
  {
    assert (l + [x])[..|l|] == l;
  }

  // Nothing that follows changes the part before a node that stays.
  lemma {:induction false} StripConcat(a: seq<Node>, b: seq<Node>, off: seq<Id>)
    requires b == [] || b[0].id !in off
    ensures Strip(a + b, off) == Strip(a, off) + Strip(b, off)
    ensures b != [] ==> Strip(b, off) != []
    decreases |b|
  {
    if b == [] {
      assert a + b == a;
    } else {
      var m := |b| - 1;
      StripConcat(a, b[..m], off);
      assert a + b == (a + b[..m]) + [b[m]];
      StripPush(a + b[..m], b[m], off);
      if b[m].id in off {
        RaiseConcat(Strip(a, off), Strip(b[..m], off));
      } else {
        PushConcat(Strip(a, off), Strip(b[..m], off), b[m]);
      }
    }
  }

  lemma RaiseRemove(l: seq<Node>, k: nat)
    requires 0 < k < |l|
    ensures RemoveList(Raise(l), k) == Raise(RemoveList(l, k))
  {
  }

  lemma RemoveFront(l: seq<Node>, x: Node, k: nat)
    requires 0 < k < |l|
    ensures RemoveList(l + [x], k) == RemoveList(l, k) + [x]
  {
  }

  lemma RemoveLast(l: seq<Node>, x: Node)
    requires l != []
    ensures RemoveList(l + [x], |l|) == Raise(l)
  {
  }

  // The last node goes on the scan.
  lemma StripLast(l: seq<Node>, off: seq<Id>)
    requires DistinctIds(l) && l != [] && l[|l| - 1].id !in off && Strip(l[..|l| - 1], off) != []
    ensures RemoveList(Strip(l, off), |Strip(l[..|l| - 1], off)|) == Strip(l, [l[|l| - 1].id] + off)
  {
    var m := |l| - 1;
    StripSame(l[..m], off, [l[m].id] + off);
    RemoveLast(Strip(l[..m], off), l[m]);
  }

  // A node before the last one goes on the scan.
  lemma StripEarlier(l: seq<Node>, off: seq<Id>, k: nat, x: Id)
    requires l != [] && l[|l| - 1].id != x && 0 < k < |Strip(l[..|l| - 1], off)|
    requires RemoveList(Strip(l[..|l| - 1], off), k) == Strip(l[..|l| - 1], [x] + off)
    ensures RemoveList(Strip(l, off), k) == Strip(l, [x] + off)
  {
    RaiseRemove(Strip(l[..|l| - 1], off), k);
    RemoveFront(Strip(l[..|l| - 1], off), l[|l| - 1], k);
  }

  // Adding a block to the scan.
  lemma {:induction false} StripMore(l: seq<Node>, off: seq<Id>, k: nat)
    requires DistinctIds(l) && 0 < k < |Strip(l, off)|
    ensures RemoveList(Strip(l, off), k) == Strip(l, [Strip(l, off)[k].id] + off)
    decreases |l|
  {
    var m, x := |l| - 1, Strip(l, off)[k].id;
    var front := Strip(l[..m], off);
    if k < |front| {
      assert front[k].id == x;
      var i := StripFrom(l[..m], off, k);
      StripMore(l[..m], off, k);
      StripEarlier(l, off, k, x);
    } else {
      StripLast(l, off);
    }
  }

  /** At any point of a scan the list is the original one without the blocks on the scan, and a hole
      wherever one of them was. */
  lemma {:induction false} NowIsStripped(c: Scan)
    requires Good(c) && DistinctIds(Origin(c))
    ensures Now(c) == Strip(Origin(c), Ids(c))
  {
    if c.Begin? {
      StripNothing(c.list);
    } else {
      NowIsStripped(c.before);
      StripMore(Origin(c), Ids(c.before), c.k);
    }
  }

  /// Blocks that are not neighbours

  ghost predicate Touching(l: seq<Node>, ids: seq<Id>, i: nat)
    requires i + 1 < |l|
  {
    l[i].id in ids && l[i + 1].id in ids
  }

  // No two of the blocks are neighbours.
  ghost predicate Apart(l: seq<Node>, ids: seq<Id>) {
    forall i: nat | i + 1 < |l| :: !Touching(l, ids, i)
  }

  function NodeIds(offs: seq<Off>): seq<Id> {
    seq(|offs|, i requires 0 <= i < |offs| => offs[i].node.id)
  }

  lemma {:induction false} OffsNameIds(c: Scan)
    requires Good(c)
    ensures NodeIds(Offs(c)) == Ids(c)
  {
    if c.Add? {
      OffsNameIds(c.before);
    }
  }

  // Around the node at `j`, whose neighbours are on the list.
  lemma StripAround(l: seq<Node>, off: seq<Id>, j: nat)
    requires 0 < j < |l| && l[j - 1].id !in off && (j + 1 < |l| ==> l[j + 1].id !in off)
    ensures var a, b := Strip(l[..j - 1], off), Strip(l[j + 1..], off);
            Strip(l, off) == if l[j].id in off then a + [l[j - 1].(holeFollows := true)] + b else a + [l[j - 1], l[j]] + b
  {
    var a, b := l[..j - 1], l[j + 1..];
    var mid := a + [l[j - 1], l[j]];
    assert mid[..j] == a + [l[j - 1]] && mid[..j][..j - 1] == a;
    assert l == mid + b;
    StripConcat(mid, b, off);
  }

  lemma BackAt(a: seq<Node>, x: Node, b: seq<Node>, o: Off)
    ensures BackList(a + [x] + b, |a|, o) == a + [x.(holeFollows := o.precedesHole), o.node] + b
  {
    var l := a + [x] + b;
    assert l[..|a|] == a && l[|a|] == x && l[|a| + 1..] == b;
  }

  lemma BackBetween(a: seq<Node>, y: Node, b: seq<Node>, o: Off)
    requires DistinctIds(a + [y] + b)
    ensures IndexOf(a + [y] + b, y.id) == |a|
    ensures BackList(a + [y] + b, |a|, o) == a + [y.(holeFollows := o.precedesHole), o.node] + b
  {
    assert (a + [y] + b)[|a|] == y;
    IndexIs(a + [y] + b, |a|);
    BackAt(a, y, b, o);
  }

  // The list with and without a block whose neighbours are on the list.
  lemma StripWithout(l: seq<Node>, off: seq<Id>, off': seq<Id>, j: nat)
    requires 0 < j < |l| && l[j].id in off && l[j - 1].id !in off && (j + 1 < |l| ==> l[j + 1].id !in off)
    requires forall i | 0 <= i < |l| :: l[i].id in off' <==> l[i].id in off && i != j
    ensures var a, b := Strip(l[..j - 1], off), Strip(l[j + 1..], off);
            && Strip(l, off) == a + [l[j - 1].(holeFollows := true)] + b
            && Strip(l, off') == a + [l[j - 1], l[j]] + b
  {
    StripAround(l, off, j);
    StripAround(l, off', j);
    StripSame(l[..j - 1], off, off');
    StripSame(l[j + 1..], off, off');
  }

  // A block whose neighbours are on the list goes back to its place, and its neighbour gets its flag back.
  lemma BackInPlace(l: seq<Node>, off: seq<Id>, off': seq<Id>, j: nat)
    requires DistinctIds(l) && 0 < j < |l| && l[j].id in off && l[j - 1].id !in off && (j + 1 < |l| ==> l[j + 1].id !in off)
    requires forall i | 0 <= i < |l| :: l[i].id in off' <==> l[i].id in off && i != j
    ensures var p := IndexOf(Strip(l, off), l[j - 1].id);
            p < |Strip(l, off)| && BackList(Strip(l, off), p, AddOff(l, j)) == Strip(l, off')
  {
    StripWithout(l, off, off', j);
    StripDistinct(l, off);
    BackBetween(Strip(l[..j - 1], off), l[j - 1].(holeFollows := true), Strip(l[j + 1..], off), AddOff(l, j));
  }

  // A block added while its neighbours are on the list remembers what the original list says.
  lemma OffIsOriginal(l: seq<Node>, off: seq<Id>, k: nat) returns (j: nat)
    requires DistinctIds(l) && 0 < k < |Strip(l, off)| && Apart(l, [Strip(l, off)[k].id] + off) && l[0].id !in off
    ensures 0 < j < |l| && AddOff(Strip(l, off), k) == AddOff(l, j)
  {
    j := StripFrom(l, off, k);
    var x := Strip(l, off)[k].id;
    StripDistinct(l, off);
    assert j > 0 by {
      StripHead(l, off);
    }
    assert !Touching(l, [x] + off, j - 1);
    assert j + 1 < |l| ==> !Touching(l, [x] + off, j);
    StripAround(l, off, j);
    var a := Strip(l[..j - 1], off);
    IndexIs(Strip(l, off), |a| + 1);
    IndexIs(Strip(l, off), k);
  }

  lemma {:induction false} StripHead(l: seq<Node>, off: seq<Id>)
    requires l != [] && l[0].id !in off
    ensures Strip(l, off) != [] && Strip(l, off)[0].id == l[0].id
    decreases |l|
  {
    if |l| > 1 {
      StripHead(l[..|l| - 1], off);
    }
  }

  ghost predicate Remembers(l: seq<Node>, o: Off) {
    exists j | 0 < j < |l| :: o == AddOff(l, j)
  }

  // What the blocks of a scan remember, if no two of them are neighbours: each something of its own.
  lemma {:induction false} OffsAreOriginal(c: Scan, s: int, n: int)
    requires Good(c) && Sorted(Origin(c), s, n) && Apart(Origin(c), Ids(c))
    ensures forall o | o in Offs(c) :: Remembers(Origin(c), o)
    ensures forall o: Off :: multiset(Offs(c))[o] <= 1
    ensures HEAD !in Ids(c)
  {
    if c.Add? {
      var l, off := Origin(c), Ids(c.before);
      assert forall i: nat | i + 1 < |l| :: Touching(l, off, i) ==> Touching(l, Ids(c), i);
      OffsAreOriginal(c.before, s, n);
      NowIsStripped(c.before);
      var j := OffIsOriginal(l, off, c.k);
      OffsNameIds(c.before);
      var i := StripFrom(l, off, c.k);
      var o := AddOff(Now(c.before), c.k);
      forall t | 0 <= t < |Offs(c.before)| ensures Offs(c.before)[t] != o {
        assert NodeIds(Offs(c.before))[t] in off;
      }
    }
  }

  /** Taking blocks off in any order whatever restores the list, if no two of them are neighbours. */
  lemma {:induction false} ApartRestores(l: seq<Node>, offs: seq<Off>)
    requires DistinctIds(l) && Apart(l, NodeIds(offs))
    requires forall o | o in offs :: Remembers(l, o)
    requires forall o: Off :: multiset(offs)[o] <= 1
    ensures Unwind(Strip(l, NodeIds(offs)), offs) == l
    decreases |offs|
  {
    if offs == [] {
      StripNothing(l);
    } else {
      var o, rest := offs[0], offs[1..];
      assert offs == [o] + rest;
      var j := FirstGoesBack(l, offs);
      BackInPlace(l, NodeIds(offs), NodeIds(rest), j);
      assert NodeIds(offs) == [o.node.id] + NodeIds(rest);
      assert forall i: nat | i + 1 < |l| :: Touching(l, NodeIds(rest), i) ==> Touching(l, NodeIds(offs), i);
      ApartRestores(l, rest);
    }
  }

  lemma FirstGoesBack(l: seq<Node>, offs: seq<Off>) returns (j: nat)
    requires offs != [] && DistinctIds(l) && Apart(l, NodeIds(offs))
    requires forall o | o in offs :: Remembers(l, o)
    requires forall o: Off :: multiset(offs)[o] <= 1
    ensures 0 < j < |l| && offs[0] == AddOff(l, j)
    ensures var ids, rest := NodeIds(offs), NodeIds(offs[1..]);
            && l[j].id in ids && l[j - 1].id !in ids && (j + 1 < |l| ==> l[j + 1].id !in ids)
            && (forall i | 0 <= i < |l| :: l[i].id in rest <==> l[i].id in ids && i != j)
            && (forall o: Off :: multiset(offs[1..])[o] <= 1)
  {
    var ids, rest := NodeIds(offs), NodeIds(offs[1..]);
    assert offs == [offs[0]] + offs[1..];
    assert ids == [offs[0].node.id] + rest;
    assert Remembers(l, offs[0]);
    j :| 0 < j < |l| && offs[0] == AddOff(l, j);
    assert ids[0] == l[j].id;
    assert !Touching(l, ids, j - 1);
    assert j + 1 < |l| ==> !Touching(l, ids, j);
    assert multiset(offs) == multiset{offs[0]} + multiset(offs[1..]);
    assert multiset(offs[1..])[offs[0]] == 0 by {
      assert multiset(offs)[offs[0]] <= 1;
    }
    forall o: Off ensures multiset(offs[1..])[o] <= 1 {
      assert multiset(offs)[o] <= 1;
    }
    forall t | 0 <= t < |rest| ensures rest[t] != l[j].id {
      assert Remembers(l, offs[t + 1]);
      var j' :| 0 < j' < |l| && offs[t + 1] == AddOff(l, j');
      assert offs[1..][t] == offs[t + 1] && offs[t + 1] in multiset(offs[1..]);
    }
  }

  /// Blocks that are neighbours

  ghost predicate Before(l: seq<Node>, a: Id, b: Id) {
    exists i, j | 0 <= i < j < |l| :: l[i].id == a && l[j].id == b
  }

  lemma BackKeepsOrder(l: seq<Node>, p: nat, o: Off, a: Id, b: Id)
    requires p < |l| && Before(l, a, b)
    ensures Before(BackList(l, p, o), a, b)
  {
    var i, j :| 0 <= i < j < |l| && l[i].id == a && l[j].id == b;
    var l' := BackList(l, p, o);
    assert l'[if i <= p then i else i + 1].id == a && l'[if j <= p then j else j + 1].id == b;
  }

  lemma {:induction false} UnwindKeepsOrder(l: seq<Node>, offs: seq<Off>, a: Id, b: Id)
    requires Before(l, a, b)
    ensures Before(Unwind(l, offs), a, b)
    decreases |offs|
  {
    if offs != [] {
      var p := IndexOf(l, offs[0].prev);
      if p < |l| {
        BackKeepsOrder(l, p, offs[0], a, b);
        UnwindKeepsOrder(BackList(l, p, offs[0]), offs[1..], a, b);
      }
    }
  }

  lemma {:induction false} UnwindLength(l: seq<Node>, offs: seq<Off>)
    ensures |Unwind(l, offs)| <= |l| + |offs|
    decreases |offs|
  {
    if offs != [] {
      var p := IndexOf(l, offs[0].prev);
      if p < |l| {
        UnwindLength(BackList(l, p, offs[0]), offs[1..]);
      }
    }
  }

  // If every block got back on the list, so did the first ones.
  lemma {:induction false} UnwindSplit(l: seq<Node>, a: seq<Off>, b: seq<Off>)
    requires |Unwind(l, a + b)| == |l| + |a| + |b|
    ensures |Unwind(l, a)| == |l| + |a| && Unwind(l, a + b) == Unwind(Unwind(l, a), b)
    decreases |a|
  {
    if a == [] {
      assert a + b == b;
    } else {
      var p := IndexOf(l, a[0].prev);
      assert (a + b)[1..] == a[1..] + b;
      UnwindSplit(BackList(l, p, a[0]), a[1..], b);
    }
  }

  lemma BackIsListed(l: seq<Node>, p: nat, o: Off, x: Id)
    requires p < |l|
    ensures Listed(BackList(l, p, o), x) <==> Listed(l, x) || x == o.node.id
  {
    var l' := BackList(l, p, o);
    if i :| 0 < i < |l| && l[i].id == x {
      assert l'[if i <= p then i else i + 1].id == x;
    }
    assert l'[p + 1].id == o.node.id;
    if i :| 0 < i < |l'| && l'[i].id == x {
      assert i <= p ==> l[i].id == x;
      assert i > p + 1 ==> l[i - 1].id == x;
    }
  }

  lemma {:induction false} UnwindIsListed(l: seq<Node>, offs: seq<Off>, x: Id)
    requires |Unwind(l, offs)| == |l| + |offs|
    ensures Listed(Unwind(l, offs), x) <==> Listed(l, x) || x in NodeIds(offs)
    decreases |offs|
  {
    if offs != [] {
      var p := IndexOf(l, offs[0].prev);
      assert NodeIds(offs) == [offs[0].node.id] + NodeIds(offs[1..]);
      BackIsListed(l, p, offs[0], x);
      UnwindIsListed(BackList(l, p, offs[0]), offs[1..], x);
    }
  }

  // The order of the original list stays.
  lemma {:induction false} NowKeepsOrder(c: Scan, i: nat, j: nat)
    requires Good(c) && i < j < |Now(c)|
    ensures Before(Origin(c), Now(c)[i].id, Now(c)[j].id)
  {
    if c.Add? {
      var l, k := Now(c.before), c.k;
      NowKeepsOrder(c.before, if i < k then i else i + 1, if j < k then j else j + 1);
    }
  }

  // A block is on the list or on the scan.
  lemma ListOrScan(c: Scan, i: nat)
    requires Good(c) && DistinctIds(Origin(c)) && 0 < i < |Origin(c)|
    ensures Listed(Now(c), Origin(c)[i].id) <==> Origin(c)[i].id !in Ids(c)
  {
    ListedOrScanned(c, Origin(c)[i].id);
    NowIsStripped(c);
    forall k: nat | k < |Now(c)| ensures Now(c)[k].id !in Ids(c) {
      var j := StripFrom(Origin(c), Ids(c), k);
    }
  }

  lemma {:induction false} HeadStays(c: Scan, s: int, n: int)
    requires Good(c) && Sorted(Origin(c), s, n)
    ensures HEAD !in Ids(c)
  {
    if c.Add? {
      HeadStays(c.before, s, n);
      ScanSorted(c.before, s, n);
    }
  }

  /// The two orders

  function Reversed(offs: seq<Off>): seq<Off> {
    if offs == [] then [] else Reversed(offs[1..]) + [offs[0]]
  }

  lemma {:induction false} ReversedSame(offs: seq<Off>)
    ensures |Reversed(offs)| == |offs| && multiset(Reversed(offs)) == multiset(offs)
  {
    if offs != [] {
      ReversedSame(offs[1..]);
      assert offs == [offs[0]] + offs[1..];
    }
  }

  lemma SameIds(a: seq<Off>, b: seq<Off>, x: Id)
    requires multiset(a) == multiset(b) && x in NodeIds(a)
    ensures x in NodeIds(b)
  {
    var t :| 0 <= t < |a| && NodeIds(a)[t] == x;
    assert a[t] in multiset(b);
    var t' :| 0 <= t' < |b| && b[t'] == a[t];
    assert NodeIds(b)[t'] == x;
  }

  /** If no two blocks on the scan are neighbours, taking them off in any order restores the list. */
  lemma AnyOrderRestores(c: Scan, s: int, n: int, offs: seq<Off>)
    requires Good(c) && Sorted(Origin(c), s, n) && Apart(Origin(c), Ids(c)) && multiset(offs) == multiset(Offs(c))
    ensures Unwind(Now(c), offs) == Origin(c)
  {
    var l := Origin(c);
    OffsAreOriginal(c, s, n);
    OffsNameIds(c);
    NowIsStripped(c);
    forall x: Id ensures x in NodeIds(offs) <==> x in Ids(c) {
      if x in NodeIds(offs) { SameIds(offs, Offs(c), x); }
      if x in Ids(c) { SameIds(Offs(c), offs, x); }
    }
    StripSame(l, Ids(c), NodeIds(offs));
    assert forall i: nat | i + 1 < |l| :: Touching(l, NodeIds(offs), i) ==> Touching(l, Ids(c), i);
    forall o | o in offs ensures Remembers(l, o) {
      assert o in multiset(Offs(c));
    }
    ApartRestores(l, offs);
  }

  lemma {:induction false} ScanLength(c: Scan)
    requires Good(c)
    ensures |Now(c)| + |Offs(c)| == |Origin(c)|
  {
    if c.Add? {
      ScanLength(c.before);
    }
  }

  // The point of the scan where block `y` was added.
  lemma {:induction false} AddedAt(c: Scan, y: Id) returns (d: Scan, rest: seq<Off>)
    requires Good(c) && y in Ids(c)
    ensures Good(d) && d.Add? && TopId(d) == y && Origin(d) == Origin(c)
    ensures Reversed(Offs(c)) == Reversed(Offs(d.before)) + ([AddOff(Now(d.before), d.k)] + rest)
  {
    if TopId(c) == y {
      d, rest := c, [];
    } else {
      d, rest := AddedAt(c.before, y);
      var o := AddOff(Now(c.before), c.k);
      assert Reversed(Offs(d.before)) + ([AddOff(Now(d.before), d.k)] + rest) + [o]
          == Reversed(Offs(d.before)) + ([AddOff(Now(d.before), d.k)] + (rest + [o]));
      assert Offs(c)[1..] == Offs(c.before);
      rest := rest + [o];
    }
  }

  lemma OrderIsStrict(l: seq<Node>, i: nat, z: Id)
    requires DistinctIds(l) && i + 1 < |l|
    ensures !(Before(l, l[i].id, z) && Before(l, z, l[i + 1].id))
    ensures !Before(l, l[i + 1].id, l[i].id)
  {
  }

  // When `y` was added, its neighbour `x` was on the list and is what it remembers, or was on the scan already.
  lemma NeighbourRemembered(d: Scan, i: nat)
    requires Good(d) && d.Add? && DistinctIds(Origin(d)) && 0 < i && i + 1 < |Origin(d)| && TopId(d) == Origin(d)[i + 1].id
    requires Origin(d)[i].id !in Ids(d.before)
    ensures AddOff(Now(d.before), d.k).prev == Origin(d)[i].id
  {
    var l, now, x, k := Origin(d), Now(d.before), Origin(d)[i].id, d.k;
    ListOrScan(d.before, i);
    var t :| 0 < t < |now| && now[t].id == x;
    OrderIsStrict(l, i, now[k - 1].id);
    NowKeepsOrder(d.before, k - 1, k);
    if t > k {
      NowKeepsOrder(d.before, k, t);
    } else if t < k - 1 {
      NowKeepsOrder(d.before, t, k - 1);
    }
    assert t != k;
  }

  // A block `y` that comes back next to a neighbour other than `x` ends up on the wrong side of `x`.
  lemma WrongSide(d: Scan, i: nat, l: seq<Node>, rest: seq<Off>)
    requires Good(d) && d.Add? && DistinctIds(Origin(d)) && 0 < i && i + 1 < |Origin(d)| && TopId(d) == Origin(d)[i + 1].id
    requires var o := AddOff(Now(d.before), d.k);
             && Listed(l, Origin(d)[i].id) && o.prev != Origin(d)[i].id
             && IndexOf(l, o.prev) < |l|
    ensures var o := AddOff(Now(d.before), d.k); Unwind(BackList(l, IndexOf(l, o.prev), o), rest) != Origin(d)
  {
    var origin, o, x, y := Origin(d), AddOff(Now(d.before), d.k), Origin(d)[i].id, Origin(d)[i + 1].id;
    var p := IndexOf(l, o.prev);
    var q :| 0 < q < |l| && l[q].id == x;
    var l' := BackList(l, p, o);
    OrderIsStrict(origin, i, o.prev);
    NowKeepsOrder(d.before, d.k - 1, d.k);
    if q < p {
      assert l'[q].id == x && l'[p].id == o.prev;
      UnwindKeepsOrder(l', rest, x, o.prev);
    } else {
      assert l'[q + 1].id == x && l'[p + 1].id == y;
      UnwindKeepsOrder(l', rest, y, x);
    }
  }

  // What a block remembers was on the list.
  lemma PrevNotScanned(d: Scan, s: int, n: int, i: nat)
    requires Good(d) && d.Add? && Sorted(Origin(d), s, n) && 0 < i < |Origin(d)| && Origin(d)[i].id in Ids(d.before)
    ensures AddOff(Now(d.before), d.k).prev != Origin(d)[i].id
  {
    ScanSorted(d.before, s, n);
    ListOrScan(d.before, i);
  }

  lemma {:induction false} UnwindHead(l: seq<Node>, offs: seq<Off>)
    requires l != []
    ensures Unwind(l, offs) != [] && Unwind(l, offs)[0].id == l[0].id
    decreases |offs|
  {
    if offs != [] {
      var p := IndexOf(l, offs[0].prev);
      if p < |l| {
        UnwindHead(BackList(l, p, offs[0]), offs[1..]);
      }
    }
  }

  // Neighbours, taken off in the order they were added, do not get back to their places.
  lemma TouchingCorrupts(c: Scan, s: int, n: int, i: nat)
    requires Good(c) && Sorted(Origin(c), s, n) && i + 1 < |Origin(c)| && Touching(Origin(c), Ids(c), i)
    ensures Unwind(Now(c), Reversed(Offs(c))) != Origin(c)
  {
    var l, x := Origin(c), Origin(c)[i].id;
    HeadStays(c, s, n);
    var d, rest := AddedAt(c, l[i + 1].id);
    var first, o := Reversed(Offs(d.before)), AddOff(Now(d.before), d.k);
    ScanLength(c);
    ReversedSame(Offs(c));
    if Unwind(Now(c), Reversed(Offs(c))) == l {
      UnwindSplit(Now(c), first, [o] + rest);
      var l1 := Unwind(Now(c), first);
      UnwindIsListed(Now(c), first, x);
      ReversedIds(d.before, x);
      ListOrScan(c, i);
      assert ([o] + rest)[1..] == rest;
      assert IndexOf(l1, o.prev) < |l1|;
      if x in Ids(d.before) {
        PrevNotScanned(d, s, n, i);
        WrongSide(d, i, l1, rest);
      } else {
        NeighbourRemembered(d, i);
        ScanSorted(c, s, n);
        UnwindHead(Now(c), first);
        assert false;
      }
    }
  }

  lemma ReversedIds(c: Scan, x: Id)
    requires Good(c)
    ensures x in NodeIds(Reversed(Offs(c))) <==> x in Ids(c)
  {
    ReversedSame(Offs(c));
    OffsNameIds(c);
    if x in Ids(c) { SameIds(Offs(c), Reversed(Offs(c)), x); }
    if x in NodeIds(Reversed(Offs(c))) { SameIds(Reversed(Offs(c)), Offs(c), x); }
  }

  /** Taking blocks off in the order they were added restores the list exactly when no two of them are
      neighbours in it. */
  lemma SameOrderRestoresExactly(c: Scan, s: int, n: int)
    requires Good(c) && Sorted(Origin(c), s, n)
    ensures Unwind(Now(c), Reversed(Offs(c))) == Origin(c) <==>
            forall i: nat | i + 1 < |Origin(c)| :: !(Origin(c)[i].id in Ids(c) && Origin(c)[i + 1].id in Ids(c))
  {
    if Apart(Origin(c), Ids(c)) {
      ReversedSame(Offs(c));
      AnyOrderRestores(c, s, n, Reversed(Offs(c)));
      forall i: nat | i + 1 < |Origin(c)| ensures !(Origin(c)[i].id in Ids(c) && Origin(c)[i + 1].id in Ids(c)) {
        assert !Touching(Origin(c), Ids(c), i);
      }
    } else {
      var i: nat :| i + 1 < |Origin(c)| && Touching(Origin(c), Ids(c), i);
      TouchingCorrupts(c, s, n, i);
    }
  }
}
