/**
 What becomes of every event committed to a trace ring buffer: it is consumed, overwritten, or still in
 the buffer.
 */
module RingHistory {
  import opened RingPage

  /// The fate of every committed event

  // Index `x` is in exactly one of the three lists, once, if it is below `n`, and in none otherwise.
  ghost predicate OneFate(n: nat, taken: seq<nat>, lost: seq<nat>, live: seq<nat>, x: nat) {
    multiset(taken)[x] + multiset(lost)[x] + multiset(live)[x] == (if x < n then 1 else 0)
  }

  ghost predicate Partition(n: nat, taken: seq<nat>, lost: seq<nat>, live: seq<nat>) {
    && |taken| + |lost| + |live| == n
    && forall x: nat :: OneFate(n, taken, lost, live, x)
  }

  ghost predicate Less(s: seq<nat>, i: nat, j: nat)
    requires i < j < |s|
  {
    s[i] < s[j]
  }

  ghost predicate Increasing(s: seq<nat>) {
    forall i, j | 0 <= i < j < |s| :: Less(s, i, j)
  }

  ghost predicate NameOf(log: seq<Record>, live: seq<nat>, i: nat, e: Record)
    requires i < |live|
  {
    live[i] < |log| && log[live[i]] == e
  }

  ghost predicate Names(log: seq<Record>, live: seq<nat>, records: seq<Record>) {
    && |live| == |records|
    && forall i | 0 <= i < |live| :: NameOf(log, live, i, records[i])
  }

  /// The history along the way

  // Every event committed so far, and the indices into that log of the consumed events in the order
  // consumed, of the overwritten ones, and of the ones still in the buffer.
  datatype History = History(log: seq<Record>, taken: seq<nat>, lost: seq<nat>, live: seq<nat>)

  // Every event of the log has exactly one fate; the live ones are what is readable, and what was
  // taken comes before them, all in commit order.
  ghost predicate Kept(h: History, readable: seq<Record>) {
    && Partition(|h.log|, h.taken, h.lost, h.live)
    && Increasing(h.taken + h.live)
    && Names(h.log, h.live, readable)
  }

  function Committed(h: History, e: Record): History {
    h.(log := h.log + [e], live := h.live + [|h.log|])
  }

  function Consumed(h: History): History
    requires h.live != []
  {
    h.(taken := h.taken + [h.live[0]], live := h.live[1..])
  }

  function Overwritten(h: History, i: nat, j: nat): History
    requires i <= j <= |h.live|
  {
    h.(lost := h.lost + h.live[i..j], live := Cut(h.live, i, j))
  }

  function Cut(s: seq<nat>, i: nat, j: nat): seq<nat>
    requires i <= j <= |s|
  {
    s[..i] + s[j..]
  }

  lemma OverwriteNothing(h: History, readable: seq<Record>, i: nat)
    requires i <= |h.live| == |readable|
    ensures Overwritten(h, i, i) == h && readable[..i] + readable[i..] == readable
  {
    assert Cut(h.live, i, i) == h.live && h.lost + h.live[i..i] == h.lost;
  }

  lemma KeptBounds(h: History, readable: seq<Record>)
    requires Kept(h, readable)
    ensures |h.log| == |h.taken| + |h.lost| + |readable|
    ensures forall i | 0 <= i < |h.taken| :: h.taken[i] < |h.log|
  {
    forall i | 0 <= i < |h.taken|
      ensures h.taken[i] < |h.log|
    {
      assert OneFate(|h.log|, h.taken, h.lost, h.live, h.taken[i]);
      assert h.taken[i] in multiset(h.taken);
    }
  }

  lemma CommittedKept(h: History, readable: seq<Record>, e: Record)
    requires Kept(h, readable)
    ensures Kept(Committed(h, e), readable + [e])
  {
    KeptBounds(h, readable);
    var n, t := |h.log|, Committed(h, e);
    forall x: nat
      ensures OneFate(|t.log|, t.taken, t.lost, t.live, x)
    {
      assert OneFate(n, h.taken, h.lost, h.live, x);
    }
    var before, after := h.taken + h.live, h.taken + t.live;
    assert after == before + [n];
    forall i, j | 0 <= i < j < |after|
      ensures Less(after, i, j)
    {
      if j < |before| {
        assert Less(before, i, j);
      } else if |h.taken| <= i {
        assert NameOf(h.log, h.live, i - |h.taken|, readable[i - |h.taken|]);
      }
    }
    forall i | 0 <= i < |t.live|
      ensures NameOf(t.log, t.live, i, (readable + [e])[i])
    {
      if i < |h.live| { assert NameOf(h.log, h.live, i, readable[i]); }
    }
  }

  lemma ConsumedKept(h: History, readable: seq<Record>)
    requires Kept(h, readable) && readable != []
    ensures Kept(Consumed(h), readable[1..])
  {
    var t := Consumed(h);
    assert h.live == [h.live[0]] + h.live[1..];
    forall x: nat
      ensures OneFate(|h.log|, t.taken, t.lost, t.live, x)
    {
      assert OneFate(|h.log|, h.taken, h.lost, h.live, x);
    }
    assert t.taken + t.live == h.taken + h.live;
    forall i | 0 <= i < |t.live|
      ensures NameOf(t.log, t.live, i, readable[1..][i])
    {
      assert NameOf(h.log, h.live, i + 1, readable[i + 1]);
    }
  }

  lemma CutMultiset(s: seq<nat>, i: nat, j: nat)
    requires i <= j <= |s|
    ensures multiset(s) == multiset(Cut(s, i, j)) + multiset(s[i..j])
  {
    assert s == s[..i] + s[i..j] + s[j..];
  }

  lemma CutAt(s: seq<nat>, i: nat, j: nat, k: nat)
    requires i <= j <= |s| && k < |Cut(s, i, j)|
    ensures Cut(s, i, j)[k] == s[if k < i then k else k + j - i]
  {
  }

  lemma CutIncreasing(pre: seq<nat>, s: seq<nat>, i: nat, j: nat)
    requires i <= j <= |s| && Increasing(pre + s)
    ensures Increasing(pre + Cut(s, i, j))
  {
    var whole, cut := pre + s, pre + Cut(s, i, j);
    forall m, n | 0 <= m < n < |cut|
      ensures Less(cut, m, n)
    {
      var m' := if m < |pre| + i then m else m + j - i;
      var n' := if n < |pre| + i then n else n + j - i;
      assert cut[m] == whole[m'] && cut[n] == whole[n'];
      assert Less(whole, m', n');
    }
  }

  lemma CutNames(log: seq<Record>, live: seq<nat>, a: seq<Record>, b: seq<Record>, c: seq<Record>)
    requires Names(log, live, a + b + c)
    ensures Names(log, Cut(live, |a|, |a| + |b|), a + c)
  {
    var i, j := |a|, |a| + |b|;
    var rest := Cut(live, i, j);
    forall k | 0 <= k < |rest|
      ensures NameOf(log, rest, k, (a + c)[k])
    {
      CutAt(live, i, j, k);
      var k' := if k < i then k else k + j - i;
      assert NameOf(log, live, k', (a + b + c)[k']);
    }
  }

  lemma OverwrittenFates(h: History, i: nat, j: nat)
    requires i <= j <= |h.live| && Partition(|h.log|, h.taken, h.lost, h.live)
    ensures var t := Overwritten(h, i, j); Partition(|t.log|, t.taken, t.lost, t.live)
  {
    var t := Overwritten(h, i, j);
    CutMultiset(h.live, i, j);
    assert multiset(t.lost) == multiset(h.lost) + multiset(h.live[i..j]);
    forall x: nat
      ensures OneFate(|h.log|, t.taken, t.lost, t.live, x)
    {
      assert OneFate(|h.log|, h.taken, h.lost, h.live, x);
    }
  }

  lemma OverwrittenKept(h: History, a: seq<Record>, b: seq<Record>, c: seq<Record>)
    requires Kept(h, a + b + c)
    ensures |a| + |b| <= |h.live| && Kept(Overwritten(h, |a|, |a| + |b|), a + c)
  {
    OverwrittenFates(h, |a|, |a| + |b|);
    CutIncreasing(h.taken, h.live, |a|, |a| + |b|);
    CutNames(h.log, h.live, a, b, c);
  }
}
