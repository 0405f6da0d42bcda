/**
 The trace ring buffer between the reservation of an event and its commit.

 While the writer looks for room the commit page stays where it is, and so do the `commit` counters of
 the pages the tail has left behind; the commit catches up once the event is written or given up.  `Settle`
 gives the state that will then be reached, so whatever the writer does in between is known by what it
 does to the settled state.
 */
module RingReserve {
  import opened RingPage
  import opened RingState

  function Settled(p: Page): Page {
    p.(commit := p.write)
  }

  function AllSettled(pages: seq<Page>): seq<Page> {
    seq(|pages|, i requires 0 <= i < |pages| => Settled(pages[i]))
  }

  // The page at place `i` of the ring, -1 for the reader's page.
  function PageAt(s: State, i: int): nat
    requires -1 <= i < |s.ring|
  {
    if i < 0 then s.readerPage else s.ring[i]
  }

  // From the commit page, at place `c`, to the tail page.
  function Path(s: State, c: int): seq<nat>
    requires -1 <= c <= s.tailAt < |s.ring|
  {
    PathIn(s.ring, s.readerPage, s.tailAt, c)
  }

  function PathIn(ring: seq<nat>, reader: nat, tailAt: int, c: int): seq<nat>
    requires -1 <= c <= tailAt < |ring|
  {
    if c < 0 then [reader] + ring[0..tailAt + 1] else ring[c..tailAt + 1]
  }

  ghost predicate DoneOrDue(s: State, c: int, id: nat)
    requires id < |s.pages| && -1 <= c <= s.tailAt < |s.ring|
  {
    s.pages[id].commit == s.pages[id].write || id in Path(s, c)
  }

  // All commits are done, but for pages on that path.
  ghost predicate Lags(s: State, c: int) {
    && Linked(s) && -1 <= c <= s.tailAt
    && (forall id | 0 <= id < |s.pages| :: DoneOrDue(s, c, id))
  }

  // The state once the commit page, now at place `c`, has caught up with the tail page.
  ghost function Settle(s: State, c: int): State
    requires Linked(s)
  {
    s.(pages := AllSettled(s.pages), writeStamp := if c == s.tailAt then s.writeStamp else s.pages[TailPage(s)].stamp)
  }

  ghost predicate QuietAt(s: State, id: nat)
    requires id < |s.pages|
  {
    s.pages[id].commit == s.pages[id].write
  }

  ghost predicate Quiet(s: State) {
    forall id | 0 <= id < |s.pages| :: QuietAt(s, id)
  }

  lemma QuietIsSettled(s: State)
    requires Linked(s) && Quiet(s)
    ensures Lags(s, s.tailAt) && Settle(s, s.tailAt) == s
  {
    forall id | 0 <= id < |s.pages| ensures Settled(s.pages[id]) == s.pages[id] && DoneOrDue(s, s.tailAt, id) {
      assert QuietAt(s, id);
    }
    assert AllSettled(s.pages) == s.pages;
  }

  lemma SettledUpdate(pages: seq<Page>, id: nat, q: Page)
    requires id < |pages|
    ensures AllSettled(pages[id := q]) == AllSettled(pages)[id := Settled(q)]
  {
  }

  /// Padding the tail page (rb_reset_tail)

  function Pad(p: Page): Page
    requires p.write <= PAGE_WORDS
  {
    p.(data := PadPage(p.data, p.write), write := PaddedEnd(p.write))
  }

  function PadTail(s: State): State
    requires Linked(s) && s.pages[TailPage(s)].write <= PAGE_WORDS
  {
    s.(pages := s.pages[TailPage(s) := Pad(s.pages[TailPage(s)])])
  }

  lemma TailOnPath(s: State, c: int)
    requires Linked(s) && -1 <= c <= s.tailAt
    ensures TailPage(s) in Path(s, c)
  {
    if 0 <= s.tailAt {
      assert Path(s, c)[if c < 0 then s.tailAt + 1 else s.tailAt - c] == s.ring[s.tailAt];
    }
  }

  // Pages on the path may change, and so may the write stamp.
  function WithPage(s: State, id: nat, q: Page, writeStamp: nat): State
    requires id < |s.pages|
  {
    s.(pages := s.pages[id := q], writeStamp := writeStamp)
  }

  lemma LagsWithPage(s: State, c: int, id: nat, q: Page, writeStamp: nat)
    requires Lags(s, c) && id < |s.pages| && id in Path(s, c)
    ensures Lags(WithPage(s, id, q, writeStamp), c)
  {
    var t := WithPage(s, id, q, writeStamp);
    assert Path(t, c) == Path(s, c);
    forall i | 0 <= i < |t.pages| ensures DoneOrDue(t, c, i) {
      assert DoneOrDue(s, c, i);
    }
  }

  lemma SettlePad(s: State, c: int)
    requires Lags(s, c) && s.pages[TailPage(s)].write <= PAGE_WORDS
    ensures var u := Settle(s, c);
            Lags(PadTail(s), c) && Settle(PadTail(s), c) == OnTail(u, Close(u.pages[TailPage(s)]), u.writeStamp)
  {
    var q := Pad(s.pages[TailPage(s)]);
    TailOnPath(s, c);
    LagsWithPage(s, c, TailPage(s), q, s.writeStamp);
    SettledUpdate(s.pages, TailPage(s), q);
  }

  /// Moving the tail on (rb_tail_page_update, rb_handle_head_page)

  function Move(s: State, now: nat): State
    requires Linked(s)
  {
    NextPage(s, now).(writeStamp := s.writeStamp)
  }

  // When the ring turns, every place in it is one less.
  function Moved(s: State, c: int): int {
    if s.tailAt == |s.ring| - 1 then c - 1 else c
  }

  // The page the tail moves to.
  function NextId(s: State): nat
    requires Linked(s)
  {
    if s.tailAt == |s.ring| - 1 then s.ring[0] else s.ring[s.tailAt + 1]
  }

  lemma PathTurns(ring: seq<nat>, reader: nat, c: int)
    requires 0 < c < |ring|
    ensures PathIn(ring[1..] + [ring[0]], reader, |ring| - 1, c - 1) == PathIn(ring, reader, |ring| - 1, c) + [ring[0]]
  {
  }

  lemma PathGrows(ring: seq<nat>, reader: nat, tailAt: int, c: int)
    requires -1 <= c <= tailAt < |ring| - 1
    ensures PathIn(ring, reader, tailAt + 1, c) == PathIn(ring, reader, tailAt, c) + [ring[tailAt + 1]]
  {
  }

  lemma MovedPath(s: State, c: int, now: nat)
    requires Linked(s) && -1 <= c <= s.tailAt && (s.tailAt == |s.ring| - 1 ==> 0 < c)
    ensures var t := Move(s, now); -1 <= Moved(s, c) < t.tailAt < |t.ring| && Path(t, Moved(s, c)) == Path(s, c) + [NextId(s)]
  {
    if s.tailAt == |s.ring| - 1 {
      PathTurns(s.ring, s.readerPage, c);
    } else {
      PathGrows(s.ring, s.readerPage, s.tailAt, c);
    }
  }

  lemma MoveLinked(s: State, now: nat)
    requires Linked(s)
    ensures Linked(Move(s, now))
  {
  }

  lemma MoveLags(s: State, c: int, now: nat)
    requires Lags(s, c) && (s.tailAt == |s.ring| - 1 ==> 0 < c)
    ensures Lags(Move(s, now), Moved(s, c))
  {
    var t := Move(s, now);
    MoveLinked(s, now);
    MovedPath(s, c, now);
    MoveTail(s, now);
    forall id | 0 <= id < |t.pages| ensures DoneOrDue(t, Moved(s, c), id) {
      assert DoneOrDue(s, c, id);
    }
  }

  lemma MoveTail(s: State, now: nat)
    requires Linked(s)
    ensures var t := Move(s, now);
            && -1 <= t.tailAt < |t.ring| && TailPage(t) == NextId(s) < |s.pages|
            && t.pages == s.pages[NextId(s) := s.pages[NextId(s)].(write := 0, entries := 0, commit := 0, stamp := now)]
  {
    if s.tailAt == |s.ring| - 1 {
      assert (s.ring[1..] + [s.ring[0]])[s.tailAt] == s.ring[0];
    }
  }

  lemma MoveSettled(s: State, c: int, now: nat)
    requires Linked(s)
    ensures AllSettled(Move(s, now).pages) == NextPage(Settle(s, c), now).pages
  {
    var id := NextId(s);
    MoveTail(s, now);
    SettledUpdate(s.pages, id, Move(s, now).pages[id]);
  }

  lemma SettleMove(s: State, c: int, now: nat)
    requires Lags(s, c) && (s.tailAt == |s.ring| - 1 ==> 0 < c)
    ensures Lags(Move(s, now), Moved(s, c))
    ensures Settle(Move(s, now), Moved(s, c)) == NextPage(Settle(s, c), now)
  {
    MoveLags(s, c, now);
    MoveTail(s, now);
    MoveSettled(s, c, now);
  }

  // How many pages the tail can still move to: the free ones and, when overwriting, those before the commit
  // page; the commit page itself stops it, and so does the head page as long as the commit is with the reader.
  function Room(s: State, c: int, overwrite: bool): nat
    requires -1 <= c <= s.tailAt < |s.ring|
  {
    |s.ring| - 1 - s.tailAt + (if overwrite && 0 < c then c else 0)
  }

  lemma MoveTakesRoom(s: State, c: int, overwrite: bool, now: nat)
    requires Linked(s) && -1 <= c <= s.tailAt && (s.tailAt == |s.ring| - 1 ==> overwrite && 0 < c)
    ensures var t := Move(s, now);
            -1 <= Moved(s, c) <= t.tailAt < |t.ring| && Room(t, Moved(s, c), overwrite) == Room(s, c, overwrite) - 1
  {
  }

  /// Storing the event (rb_update_event and the caller's copy; the write stamp only follows the commit)

  function Store(s: State, c: int, addStamp: bool, delta: Delta, payload: seq<Word>, ts: nat): State
    requires Linked(s) && payload != [] && EndOf(s.pages[TailPage(s)].write, addStamp, payload) <= PAGE_WORDS
  {
    var p := s.pages[TailPage(s)];
    s.(pages := s.pages[TailPage(s) := Put(p, addStamp, delta, payload, ts).(commit := p.commit)],
       writeStamp := if c == s.tailAt then NewStamp(p, addStamp, delta, s.writeStamp, ts) else s.writeStamp)
  }

  lemma SettleStore(s: State, c: int, addStamp: bool, delta: Delta, payload: seq<Word>, ts: nat)
    requires Lags(s, c) && payload != [] && EndOf(s.pages[TailPage(s)].write, addStamp, payload) <= PAGE_WORDS
    requires c < s.tailAt ==> s.pages[TailPage(s)].write == 0
    ensures var t, u := Store(s, c, addStamp, delta, payload, ts), Settle(s, c);
            var p := u.pages[TailPage(s)];
            && Lags(t, c) && p.write == s.pages[TailPage(s)].write
            && Settle(t, c) == OnTail(u, Put(p, addStamp, delta, payload, ts), NewStamp(p, addStamp, delta, u.writeStamp, ts))
  {
    var t, p := Store(s, c, addStamp, delta, payload, ts), s.pages[TailPage(s)];
    var q := Put(p, addStamp, delta, payload, ts).(commit := p.commit);
    TailOnPath(s, c);
    LagsWithPage(s, c, TailPage(s), q, t.writeStamp);
    SettledUpdate(s.pages, TailPage(s), q);
    assert Settled(q) == Put(Settled(p), addStamp, delta, payload, ts);
  }

  /// Catching up (rb_set_commit_to_write)

  // The commit page is done with and the next page becomes the commit page.
  function Advanced(s: State, c: int): State
    requires Linked(s) && -1 <= c < s.tailAt
  {
    s.(pages := s.pages[PageAt(s, c) := Settled(s.pages[PageAt(s, c)])], writeStamp := s.pages[PageAt(s, c + 1)].stamp)
  }

  function Finished(s: State): State
    requires Linked(s)
  {
    s.(pages := s.pages[TailPage(s) := Settled(s.pages[TailPage(s)])])
  }

  lemma PathFirst(s: State, c: int)
    requires Linked(s) && -1 <= c < s.tailAt
    ensures Path(s, c) == [PageAt(s, c)] + Path(s, c + 1)
  {
  }

  lemma AdvancedLags(s: State, c: int)
    requires Lags(s, c) && c < s.tailAt
    ensures Lags(Advanced(s, c), c + 1)
  {
    var t, d := Advanced(s, c), c + 1;
    PathFirst(s, c);
    assert Path(t, d) == Path(s, d);
    forall id | 0 <= id < |t.pages| ensures DoneOrDue(t, d, id) {
      assert DoneOrDue(s, c, id);
    }
  }

  lemma SettleAdvanced(s: State, c: int)
    requires Lags(s, c) && c < s.tailAt
    ensures Lags(Advanced(s, c), c + 1) && Settle(Advanced(s, c), c + 1) == Settle(s, c)
  {
    var id := PageAt(s, c);
    AdvancedLags(s, c);
    SettledUpdate(s.pages, id, Settled(s.pages[id]));
    assert AllSettled(s.pages)[id := Settled(s.pages[id])] == AllSettled(s.pages);
  }

  lemma SettleFinished(s: State)
    requires Lags(s, s.tailAt)
    ensures Linked(Finished(s)) && Quiet(Finished(s)) && Finished(s) == Settle(s, s.tailAt)
  {
    var t := Finished(s);
    assert Path(s, s.tailAt) == [TailPage(s)];
    forall id | 0 <= id < |t.pages| ensures QuietAt(t, id) && t.pages[id] == Settled(s.pages[id]) {
      assert DoneOrDue(s, s.tailAt, id);
    }
    assert t.pages == AllSettled(s.pages);
  }

  /// What a writer that finds no room leaves behind

  ghost predicate NoEvents(s: State, i: nat)
    requires Linked(s) && i < |s.ring|
  {
    s.pages[s.ring[i]].entries == 0
  }

  // The commit page holds `e` events, and the pages from there to the tail page none.
  ghost predicate Bare(s: State, c: int, e: nat)
    requires Linked(s) && -1 <= c <= s.tailAt
  {
    && s.pages[PageAt(s, c)].entries == e
    && (forall i | c < i <= s.tailAt :: NoEvents(s, i))
  }

  lemma BarePad(s: State, c: int, e: nat)
    requires Linked(s) && -1 <= c <= s.tailAt && s.pages[TailPage(s)].write <= PAGE_WORDS && Bare(s, c, e)
    ensures Linked(PadTail(s)) && Bare(PadTail(s), c, e)
  {
    forall i | c < i <= s.tailAt ensures NoEvents(PadTail(s), i) {
      assert NoEvents(s, i);
    }
  }

  lemma BareMove(s: State, c: int, now: nat, e: nat)
    requires Linked(s) && -1 <= c <= s.tailAt && (s.tailAt == |s.ring| - 1 ==> 0 < c) && Bare(s, c, e)
    ensures Linked(Move(s, now)) && -1 <= Moved(s, c) <= Move(s, now).tailAt && Bare(Move(s, now), Moved(s, c), e)
  {
    MoveLinked(s, now);
    MoveTail(s, now);
    var t, d := Move(s, now), Moved(s, c);
    forall i | d < i <= t.tailAt ensures NoEvents(t, i) {
      if i < t.tailAt {
        assert NoEvents(s, i + (c - d));
      }
    }
  }

  lemma {:induction false} ConcatBare(pages: seq<Page>, ids: seq<nat>)
    requires forall i | 0 <= i < |ids| :: ids[i] < |pages| && Counted(pages[ids[i]], true) && pages[ids[i]].entries == 0
    ensures Concat(pages, ids) == []
  {
    if ids != [] {
      ConcatBare(pages, ids[..|ids| - 1]);
    }
  }

  /** Once the tail has gone round to a commit page in the ring, the reader's page and the commit page are
      all that holds events. */
  lemma BareReadable(s: State, c: int, e: nat)
    requires Lags(s, c) && Ok(Settle(s, c)) && Bare(s, c, e) && c == 0 && s.tailAt == |s.ring| - 1
    ensures |Readable(Settle(s, c))| == |Unread(Settle(s, c))| + e
  {
    var u := Settle(s, c);
    assert Used(u) == s.ring;
    ConcatFirst(u.pages, s.ring);
    assert UsedOk(u, 0);
    forall i | 0 <= i < |s.ring[1..]|
      ensures s.ring[1..][i] < |u.pages| && Counted(u.pages[s.ring[1..][i]], true) && u.pages[s.ring[1..][i]].entries == 0
    {
      assert UsedOk(u, i + 1);
      assert NoEvents(s, i + 1);
    }
    ConcatBare(u.pages, s.ring[1..]);
  }
}
