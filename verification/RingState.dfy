/**
 The per-CPU trace ring buffer as a value: its pages, which of them are in the ring, and what the reader
 and the writer do to them.

 The pages are numbered.  `ring` lists the ring pages in link order starting with the head page, and
 `readerPage` is the page outside the ring; the links themselves and their flags are the subject of
 RingSwap.  Positions on a page count words.
 */
module RingState {
  import opened RingPage

  datatype Page = Page(data: Data, write: nat, read: nat, entries: nat, commit: nat, stamp: nat)

  /// What a page holds

  ghost predicate PageOk(p: Page) {
    p.write == p.commit <= PAGE_WORDS && Tiled(p.data, 0, p.commit)
  }

  ghost function Records(p: Page): seq<Record>
    requires PageOk(p)
  {
    Walk(p.data, 0, p.commit, p.stamp)
  }

  // What page `id` adds to a list of pages.
  ghost function Part(pages: seq<Page>, id: nat): seq<Record> {
    if id < |pages| && PageOk(pages[id]) then Records(pages[id]) else []
  }

  ghost function Concat(pages: seq<Page>, ids: seq<nat>): seq<Record> {
    if ids == [] then [] else Concat(pages, ids[..|ids| - 1]) + Part(pages, ids[|ids| - 1])
  }

  lemma {:induction false} ConcatFirst(pages: seq<Page>, ids: seq<nat>)
    requires ids != []
    ensures Concat(pages, ids) == Part(pages, ids[0]) + Concat(pages, ids[1..])
  {
    var n := |ids| - 1;
    if n == 0 {
      assert ids[..n] == [] && ids[1..] == [];
    } else {
      ConcatFirst(pages, ids[..n]);
      assert ids[1..][..n - 1] == ids[..n][1..];
      assert ids[1..][n - 1] == ids[n];
      JoinEnds(Part(pages, ids[0]), Concat(pages, ids[..n][1..]), Part(pages, ids[n]), Concat(pages, ids[..n]), Concat(pages, ids[1..]));
    }
  }

  lemma JoinEnds(first: seq<Record>, mid: seq<Record>, last: seq<Record>, front: seq<Record>, back: seq<Record>)
    requires front == first + mid && back == mid + last
    ensures front + last == first + back
  {
  }

  lemma {:induction false} ConcatSame(pages: seq<Page>, pages': seq<Page>, ids: seq<nat>)
    requires |pages'| == |pages|
    requires forall i | 0 <= i < |ids| :: ids[i] < |pages| && pages'[ids[i]] == pages[ids[i]]
    ensures Concat(pages', ids) == Concat(pages, ids)
  {
    if ids != [] {
      ConcatSame(pages, pages', ids[..|ids| - 1]);
    }
  }

  /// The buffer as a value

  // `tailAt` is the place of the tail page in the ring, -1 when the tail is on the reader's page.
  datatype State = State(
    pages: seq<Page>,
    ring: seq<nat>,
    readerPage: nat,
    tailAt: int,
    writeStamp: nat,
    readStamp: nat)

  ghost predicate Linked(s: State) {
    && 2 <= |s.ring| && |s.pages| == |s.ring| + 1
    && s.readerPage < |s.pages| && s.readerPage !in s.ring
    && (forall i | 0 <= i < |s.ring| :: s.ring[i] < |s.pages|)
    && (forall i, j | 0 <= i < j < |s.ring| :: s.ring[i] != s.ring[j])
    && -1 <= s.tailAt < |s.ring|
  }

  function TailPage(s: State): nat
    requires -1 <= s.tailAt < |s.ring|
  {
    if s.tailAt < 0 then s.readerPage else s.ring[s.tailAt]
  }

  // The ring pages that hold events: from the head page to the tail page.
  function Used(s: State): seq<nat>
    requires -1 <= s.tailAt < |s.ring|
  {
    s.ring[..s.tailAt + 1]
  }

  // A sound page that knows how many events it holds, and is not empty unless it is the tail page.  It may
  // hold padding only.
  ghost predicate Counted(p: Page, last: bool) {
    && PageOk(p)
    && p.entries == |Records(p)|
    && (last || 0 < p.commit)
  }

  ghost predicate UsedOk(s: State, i: nat)
    requires Linked(s) && i <= s.tailAt
  {
    Counted(s.pages[s.ring[i]], i == s.tailAt)
  }

  ghost predicate Filled(s: State)
    requires Linked(s)
  {
    forall i | 0 <= i <= s.tailAt :: UsedOk(s, i)
  }

  // The reader stands between two events of its page.
  ghost predicate AtEvent(p: Page) {
    PageOk(p) && p.read <= p.commit && Tiled(p.data, p.read, p.commit)
  }

  ghost predicate ReaderOk(s: State)
    requires Linked(s)
  {
    var p := s.pages[s.readerPage];
    && AtEvent(p)
    && (s.tailAt < 0 ==> 0 < p.commit && EndStamp(p.data, p.read, p.commit, s.readStamp) == s.writeStamp)
  }

  ghost predicate Stamped(s: State)
    requires Linked(s)
  {
    var p := s.pages[TailPage(s)];
    PageOk(p) ==> EndStamp(p.data, 0, p.commit, p.stamp) == s.writeStamp
  }

  ghost predicate Ok(s: State) {
    Linked(s) && Filled(s) && ReaderOk(s) && Stamped(s)
  }

  ghost function Unread(s: State): seq<Record>
    requires Linked(s) && ReaderOk(s)
  {
    var p := s.pages[s.readerPage];
    Walk(p.data, p.read, p.commit, s.readStamp)
  }

  // Everything committed and not yet consumed or overwritten, oldest first.
  ghost function Readable(s: State): seq<Record>
    requires Ok(s)
  {
    Unread(s) + Concat(s.pages, Used(s))
  }

  /// The reader

  // rb_advance_reader: step over the event at the read position of the reader page.
  function Advance(s: State): State
    requires s.readerPage < |s.pages| && s.pages[s.readerPage].read + 1 < PAGE_WORDS
  {
    var p := s.pages[s.readerPage];
    s.(pages := s.pages[s.readerPage := Skip(p)],
       readStamp := s.readStamp + StampDelta(p.data, p.read))
  }

  function Skip(p: Page): Page
    requires p.read + 1 < PAGE_WORDS
  {
    p.(read := p.read + EventWords(p.data, p.read))
  }

  // What stepping over one event does to the walk over the rest of a page.
  lemma SkipOk(p: Page, stamp: nat)
    requires AtEvent(p) && p.read < p.commit
    ensures p.read + 1 < p.commit && AtEvent(Skip(p))
    ensures var d, i, e, now := p.data, p.read, p.commit, stamp + StampDelta(p.data, p.read);
            && EndStamp(d, i, e, stamp) == EndStamp(d, Skip(p).read, e, now)
            && if IsData(d, i) then
                 && i + EventWords(d, i) <= PAGE_WORDS
                 && (d[i].typeLen == 0 ==> 2 <= EventWords(d, i))
                 && Walk(d, i, e, stamp) == [Record(stamp + d[i].delta, Payload(d, i))] + Walk(d, Skip(p).read, e, now)
               else Walk(d, i, e, stamp) == Walk(d, Skip(p).read, e, now)
  {
    WalkFirst(p.data, p.read, p.commit, stamp);
  }

  // Only the reader page differs; the pages in the ring keep what they hold.
  lemma FilledStays(s: State, t: State)
    requires Linked(s) && Filled(s)
    requires |t.pages| == |s.pages| && t.ring == s.ring && t.readerPage == s.readerPage && t.tailAt == s.tailAt
    requires forall i | 0 <= i < |s.pages| && i != s.readerPage :: t.pages[i] == s.pages[i]
    ensures Linked(t) && Filled(t) && Concat(t.pages, Used(t)) == Concat(s.pages, Used(s))
  {
    forall i | 0 <= i <= t.tailAt
      ensures UsedOk(t, i)
    {
      assert UsedOk(s, i);
    }
    ConcatSame(s.pages, t.pages, Used(s));
  }

  lemma AdvanceReader(s: State)
    requires Linked(s) && ReaderOk(s) && s.pages[s.readerPage].read < s.pages[s.readerPage].commit
    ensures s.pages[s.readerPage].read + 1 < PAGE_WORDS && Linked(Advance(s)) && ReaderOk(Advance(s))
    ensures var p := s.pages[s.readerPage];
            if IsData(p.data, p.read) then
              && p.read + EventWords(p.data, p.read) <= PAGE_WORDS
              && (p.data[p.read].typeLen == 0 ==> 2 <= EventWords(p.data, p.read))
              && Unread(s) == [Record(s.readStamp + p.data[p.read].delta, Payload(p.data, p.read))] + Unread(Advance(s))
            else Unread(s) == Unread(Advance(s))
  {
    var p := s.pages[s.readerPage];
    SkipOk(p, s.readStamp);
    assert Advance(s).pages[s.readerPage] == Skip(p);
  }

  lemma AdvanceStamped(s: State)
    requires Linked(s) && Stamped(s) && s.pages[s.readerPage].read + 1 < PAGE_WORDS
    ensures Linked(Advance(s)) && Stamped(Advance(s))
  {
    var p, q := s.pages[TailPage(s)], Advance(s).pages[TailPage(s)];
    assert q.data == p.data && q.commit == p.commit && q.stamp == p.stamp && q.write == p.write;
  }

  lemma AdvanceKeeps(s: State)
    requires Ok(s) && s.pages[s.readerPage].read < s.pages[s.readerPage].commit
    ensures s.pages[s.readerPage].read + 1 < PAGE_WORDS && Ok(Advance(s))
    ensures Concat(Advance(s).pages, Used(Advance(s))) == Concat(s.pages, Used(s))
  {
    AdvanceReader(s);
    AdvanceStamped(s);
    FilledStays(s, Advance(s));
  }

  lemma AdvanceOk(s: State)
    requires Ok(s) && s.pages[s.readerPage].read < s.pages[s.readerPage].commit
    ensures s.pages[s.readerPage].read + 1 < PAGE_WORDS && Ok(Advance(s))
    ensures var p := s.pages[s.readerPage];
            if IsData(p.data, p.read) then
              && p.read + EventWords(p.data, p.read) <= PAGE_WORDS
              && (p.data[p.read].typeLen == 0 ==> 2 <= EventWords(p.data, p.read))
              && Readable(s) == [Record(s.readStamp + p.data[p.read].delta, Payload(p.data, p.read))] + Readable(Advance(s))
            else Readable(s) == Readable(Advance(s))
  {
    AdvanceKeeps(s);
    AdvanceReader(s);
    var p := s.pages[s.readerPage];
    if IsData(p.data, p.read) {
      ConcatAssoc([Record(s.readStamp + p.data[p.read].delta, Payload(p.data, p.read))], Unread(Advance(s)), Concat(s.pages, Used(s)));
    }
  }

  // rb_get_reader_page once the reader page is used up: reset it, put it in the place of the head
  // page and take the head page.
  function TakeHead(s: State): State
    requires s.ring != [] && s.readerPage < |s.pages| && s.ring[0] < |s.pages|
  {
    var h, r := s.ring[0], s.readerPage;
    var pages := s.pages[r := s.pages[r].(write := 0, entries := 0, commit := 0)];
    State(pages[h := pages[h].(read := 0)], s.ring[1..] + [r], h, s.tailAt - 1, s.writeStamp, pages[h].stamp)
  }

  lemma TakeHeadLinked(s: State)
    requires Linked(s) && 0 <= s.tailAt
    ensures var t := TakeHead(s);
            && Linked(t) && Used(t) == Used(s)[1..] && Used(s)[0] == s.ring[0]
            && (forall i | 0 <= i <= t.tailAt :: t.ring[i] == s.ring[i + 1] && t.pages[t.ring[i]] == s.pages[s.ring[i + 1]])
  {
  }

  lemma TakeHeadFilled(s: State)
    requires Linked(s) && Filled(s) && 0 <= s.tailAt
    ensures Linked(TakeHead(s)) && Filled(TakeHead(s)) && UsedOk(s, 0)
    ensures Concat(s.pages, Used(s)) == Records(s.pages[s.ring[0]]) + Concat(TakeHead(s).pages, Used(TakeHead(s)))
  {
    TakeHeadLinked(s);
    assert UsedOk(s, 0);
    var t, used := TakeHead(s), Used(s);
    forall i | 0 <= i <= t.tailAt
      ensures UsedOk(t, i)
    {
      assert UsedOk(s, i + 1);
    }
    ConcatFirst(s.pages, used);
    assert forall i | 0 <= i < |Used(t)| :: Used(t)[i] == t.ring[i] && used[1..][i] == used[i + 1] == s.ring[i + 1];
    ConcatSame(s.pages, t.pages, used[1..]);
  }

  lemma TakeHeadOk(s: State)
    requires Ok(s) && 0 <= s.tailAt && Readable(s) != []
    requires s.pages[s.readerPage].read == s.pages[s.readerPage].commit
    ensures Ok(TakeHead(s)) && Readable(TakeHead(s)) == Readable(s)
    ensures var p := TakeHead(s).pages[TakeHead(s).readerPage]; p.read < p.commit
  {
    TakeHeadFilled(s);
    var h := s.pages[s.ring[0]];
    assert Unread(s) == [];
    assert 0 < h.commit by {
      if s.tailAt == 0 { assert Used(TakeHead(s)) == []; }
    }
    var p := TakeHead(s).pages[s.ring[0]];
    assert p == h.(read := 0);
  }

  /// The writer

  // rb_reset_tail and the commit of what it leaves: the rest of the tail page becomes padding.
  function Close(p: Page): Page
    requires p.write <= PAGE_WORDS
  {
    p.(data := PadPage(p.data, p.write), write := PaddedEnd(p.write), commit := PaddedEnd(p.write))
  }

  lemma CloseOk(p: Page)
    requires PageOk(p)
    ensures PageOk(Close(p)) && Records(Close(p)) == Records(p) && p.commit <= Close(p).commit && 0 < Close(p).commit
    ensures EndStamp(Close(p).data, 0, Close(p).commit, p.stamp) == EndStamp(p.data, 0, p.commit, p.stamp)
  {
    PadWalk(p.data, 0, p.commit, p.stamp);
  }

  lemma CloseReader(p: Page, stamp: nat)
    requires AtEvent(p)
    ensures PageOk(Close(p)) && AtEvent(Close(p))
    ensures Walk(Close(p).data, p.read, Close(p).commit, stamp) == Walk(p.data, p.read, p.commit, stamp)
    ensures EndStamp(Close(p).data, p.read, Close(p).commit, stamp) == EndStamp(p.data, p.read, p.commit, stamp)
  {
    CloseOk(p);
    PadWalk(p.data, p.read, p.commit, stamp);
  }

  // Reserving, filling and committing one event on a page.
  function Put(p: Page, addStamp: bool, delta: Delta, payload: seq<Word>, ts: nat): Page
    requires payload != [] && EndOf(p.write, addStamp, payload) <= PAGE_WORDS
  {
    Page(Append(p.data, p.write, addStamp, delta, payload), EndOf(p.write, addStamp, payload), p.read, p.entries + 1,
         EndOf(p.write, addStamp, payload), if p.write == 0 then ts else p.stamp)
  }

  // The write stamp after that event.
  function NewStamp(p: Page, addStamp: bool, delta: Delta, writeStamp: nat, ts: nat): nat {
    if p.write == 0 then ts else writeStamp + Encoded(p.write, addStamp, delta)
  }

  // Page `q` holds one record more than page `p`, and its time is the time of that record.
  ghost predicate Gains(p: Page, q: Page, r: Record) {
    match r
    case Record(ts, _) =>
      && PageOk(p) && PageOk(q) && Records(q) == Records(p) + [r]
      && EndStamp(q.data, 0, q.commit, q.stamp) == ts
  }

  lemma PutFirst(p: Page, addStamp: bool, delta: Delta, payload: seq<Word>, ts: nat)
    requires PageOk(p) && payload != [] && EndOf(p.write, addStamp, payload) <= PAGE_WORDS && p.write == 0
    requires !addStamp ==> delta.low == 0
    ensures Gains(p, Put(p, addStamp, delta, payload, ts), Record(ts, payload))
  {
    FirstRecord(p.data, addStamp, delta, payload, ts);
    EmptyPage(p);
    assert [] + [Record(ts, payload)] == [Record(ts, payload)];
  }

  lemma PutNext(p: Page, addStamp: bool, delta: Delta, payload: seq<Word>, ts: nat)
    requires PageOk(p) && payload != [] && EndOf(p.write, addStamp, payload) <= PAGE_WORDS && 0 < p.write
    ensures Gains(p, Put(p, addStamp, delta, payload, ts),
                  Record(EndStamp(p.data, 0, p.commit, p.stamp) + Encoded(p.write, addStamp, delta), payload))
  {
    var q := Put(p, addStamp, delta, payload, ts);
    AppendWalk(p.data, 0, p.write, addStamp, delta, payload, p.stamp);
    assert q.data == Append(p.data, p.write, addStamp, delta, payload) && q.stamp == p.stamp;
    assert q.commit == q.write == EndOf(p.write, addStamp, payload);
  }

  lemma PutOk(p: Page, addStamp: bool, delta: Delta, payload: seq<Word>, writeStamp: nat, ts: nat)
    requires PageOk(p) && payload != [] && EndOf(p.write, addStamp, payload) <= PAGE_WORDS
    requires 0 < p.commit ==> EndStamp(p.data, 0, p.commit, p.stamp) == writeStamp
    requires p.write == 0 && !addStamp ==> delta.low == 0
    ensures Gains(p, Put(p, addStamp, delta, payload, ts), Record(NewStamp(p, addStamp, delta, writeStamp, ts), payload))
  {
    if p.write == 0 {
      PutFirst(p, addStamp, delta, payload, ts);
    } else {
      PutNext(p, addStamp, delta, payload, ts);
    }
  }

  lemma PutReader(p: Page, addStamp: bool, delta: Delta, payload: seq<Word>, stamp: nat, ts: nat)
    requires AtEvent(p) && payload != [] && EndOf(p.write, addStamp, payload) <= PAGE_WORDS && 0 < p.write
    ensures var q, now := Put(p, addStamp, delta, payload, ts), EndStamp(p.data, p.read, p.commit, stamp) + Encoded(p.write, addStamp, delta);
            && p.read <= q.commit <= PAGE_WORDS && Tiled(q.data, p.read, q.commit)
            && Walk(q.data, p.read, q.commit, stamp) == Walk(p.data, p.read, p.commit, stamp) + [Record(now, payload)]
            && EndStamp(q.data, p.read, q.commit, stamp) == now
  {
    var q := Put(p, addStamp, delta, payload, ts);
    AppendWalk(p.data, p.read, p.write, addStamp, delta, payload, stamp);
    assert q.data == Append(p.data, p.write, addStamp, delta, payload) && q.commit == EndOf(p.write, addStamp, payload);
  }

  // Replacing the page the tail is on.
  function OnTail(s: State, q: Page, writeStamp: nat): State
    requires -1 <= s.tailAt < |s.ring| && TailPage(s) < |s.pages|
  {
    s.(pages := s.pages[TailPage(s) := q], writeStamp := writeStamp)
  }

  lemma UsedSplit(s: State)
    requires Linked(s) && 0 <= s.tailAt
    ensures Concat(s.pages, Used(s)) == Concat(s.pages, s.ring[..s.tailAt]) + Part(s.pages, TailPage(s))
  {
    assert Used(s)[..s.tailAt] == s.ring[..s.tailAt] && Used(s)[s.tailAt] == s.ring[s.tailAt];
  }

  ghost predicate SamePage(s: State, t: State, i: nat, shifted: bool)
    requires Linked(s) && Linked(t) && i < |t.ring| && (if shifted then i + 1 else i) < |s.ring|
  {
    t.pages[t.ring[i]] == s.pages[s.ring[if shifted then i + 1 else i]]
  }

  // The used pages of `t` are used pages of `s`, in place or one place further on, but for its tail page.
  lemma FilledBy(s: State, t: State, shifted: bool)
    requires Linked(s) && Filled(s) && Linked(t) && 0 <= t.tailAt
    requires Counted(t.pages[TailPage(t)], true)
    requires if shifted then t.tailAt <= s.tailAt else t.tailAt <= s.tailAt + 1
    requires (t.tailAt == s.tailAt && !shifted) || s.tailAt < 0 || 0 < s.pages[TailPage(s)].commit
    requires forall i | 0 <= i < t.tailAt :: SamePage(s, t, i, shifted)
    ensures Filled(t)
  {
    forall i | 0 <= i <= t.tailAt
      ensures UsedOk(t, i)
    {
      if i < t.tailAt {
        assert SamePage(s, t, i, shifted);
        assert UsedOk(s, if shifted then i + 1 else i);
      }
    }
  }

  lemma TailSound(s: State)
    requires Ok(s)
    ensures PageOk(s.pages[TailPage(s)])
  {
    if 0 <= s.tailAt { assert UsedOk(s, s.tailAt); }
  }

  lemma OnTailFilled(s: State, q: Page, writeStamp: nat)
    requires Linked(s) && Filled(s) && 0 <= s.tailAt && Counted(q, true)
    ensures var t := OnTail(s, q, writeStamp);
            && Linked(t) && Filled(t) && t.pages[t.readerPage] == s.pages[s.readerPage]
            && Concat(t.pages, Used(t)) == Concat(s.pages, s.ring[..s.tailAt]) + Records(q)
  {
    var t := OnTail(s, q, writeStamp);
    forall i | 0 <= i < t.tailAt ensures SamePage(s, t, i, false) { }
    FilledBy(s, t, false);
    ConcatSame(s.pages, t.pages, s.ring[..s.tailAt]);
    UsedSplit(t);
  }

  lemma OnTailInRing(s: State, q: Page, writeStamp: nat)
    requires Linked(s) && Filled(s) && ReaderOk(s) && 0 <= s.tailAt && Counted(q, true)
    requires EndStamp(q.data, 0, q.commit, q.stamp) == writeStamp
    ensures var t := OnTail(s, q, writeStamp);
            && Ok(t) && UsedOk(s, s.tailAt)
            && Readable(t) == Unread(s) + (Concat(s.pages, s.ring[..s.tailAt]) + Records(q))
            && Concat(s.pages, Used(s)) == Concat(s.pages, s.ring[..s.tailAt]) + Records(s.pages[TailPage(s)])
  {
    assert UsedOk(s, s.tailAt);
    UsedSplit(s);
    OnTailFilled(s, q, writeStamp);
  }

  lemma OnTailOnReader(s: State, q: Page, writeStamp: nat)
    requires Linked(s) && Filled(s) && s.tailAt < 0
    requires AtEvent(q) && 0 < q.commit && EndStamp(q.data, q.read, q.commit, s.readStamp) == writeStamp
    requires EndStamp(q.data, 0, q.commit, q.stamp) == writeStamp
    ensures var t := OnTail(s, q, writeStamp);
            && Ok(t) && Unread(t) == Walk(q.data, q.read, q.commit, s.readStamp)
            && Used(t) == [] && Used(s) == []
  {
  }

  lemma GrowInRing(s: State, q: Page, e: Record)
    requires Ok(s) && 0 <= s.tailAt && PageOk(q) && q.entries == s.pages[TailPage(s)].entries + 1
    requires UsedOk(s, s.tailAt) && Records(q) == Records(s.pages[TailPage(s)]) + [e]
    requires EndStamp(q.data, 0, q.commit, q.stamp) == e.ts
    ensures Ok(OnTail(s, q, e.ts)) && Readable(OnTail(s, q, e.ts)) == Readable(s) + [e]
  {
    OnTailInRing(s, q, e.ts);
    ConcatAssoc(Unread(s), Concat(s.pages, s.ring[..s.tailAt]), Records(s.pages[TailPage(s)]));
    ConcatAssoc(Unread(s), Concat(s.pages, s.ring[..s.tailAt]), Records(q));
  }

  // The event goes to a ring page, or to the reader's page.
  lemma PutInRing(s: State, addStamp: bool, delta: Delta, payload: seq<Word>, ts: nat)
    requires Ok(s) && 0 <= s.tailAt && payload != [] && EndOf(s.pages[TailPage(s)].write, addStamp, payload) <= PAGE_WORDS
    requires s.pages[TailPage(s)].write == 0 && !addStamp ==> delta.low == 0
    ensures var p := s.pages[TailPage(s)];
            var now := NewStamp(p, addStamp, delta, s.writeStamp, ts);
            var t := OnTail(s, Put(p, addStamp, delta, payload, ts), now);
            Ok(t) && Readable(t) == Readable(s) + [Record(now, payload)]
  {
    var p := s.pages[TailPage(s)];
    assert UsedOk(s, s.tailAt);
    PutOk(p, addStamp, delta, payload, s.writeStamp, ts);
    GrowInRing(s, Put(p, addStamp, delta, payload, ts), Record(NewStamp(p, addStamp, delta, s.writeStamp, ts), payload));
  }

  lemma PutOnReader(s: State, addStamp: bool, delta: Delta, payload: seq<Word>, ts: nat)
    requires Ok(s) && s.tailAt < 0 && payload != [] && EndOf(s.pages[TailPage(s)].write, addStamp, payload) <= PAGE_WORDS
    ensures var p := s.pages[TailPage(s)];
            var now := NewStamp(p, addStamp, delta, s.writeStamp, ts);
            var t := OnTail(s, Put(p, addStamp, delta, payload, ts), now);
            Ok(t) && Readable(t) == Readable(s) + [Record(now, payload)]
  {
    var p := s.pages[TailPage(s)];
    var now := NewStamp(p, addStamp, delta, s.writeStamp, ts);
    PutOk(p, addStamp, delta, payload, s.writeStamp, ts);
    PutReader(p, addStamp, delta, payload, s.readStamp, ts);
    OnTailOnReader(s, Put(p, addStamp, delta, payload, ts), now);
  }

  /** A committed event becomes the last readable one. */
  lemma PutEventOk(s: State, addStamp: bool, delta: Delta, payload: seq<Word>, ts: nat)
    requires Ok(s) && payload != [] && EndOf(s.pages[TailPage(s)].write, addStamp, payload) <= PAGE_WORDS
    requires s.pages[TailPage(s)].write == 0 && !addStamp ==> delta.low == 0
    ensures var p := s.pages[TailPage(s)];
            var now := NewStamp(p, addStamp, delta, s.writeStamp, ts);
            var t := OnTail(s, Put(p, addStamp, delta, payload, ts), now);
            Ok(t) && Readable(t) == Readable(s) + [Record(now, payload)]
  {
    if s.tailAt < 0 { PutOnReader(s, addStamp, delta, payload, ts); } else { PutInRing(s, addStamp, delta, payload, ts); }
  }

  lemma CloseInRing(s: State)
    requires Ok(s) && 0 <= s.tailAt
    ensures s.pages[TailPage(s)].write <= PAGE_WORDS
    ensures var t := OnTail(s, Close(s.pages[TailPage(s)]), s.writeStamp); Ok(t) && Readable(t) == Readable(s)
  {
    assert UsedOk(s, s.tailAt);
    CloseOk(s.pages[TailPage(s)]);
    OnTailInRing(s, Close(s.pages[TailPage(s)]), s.writeStamp);
  }

  /** Closing the tail page changes nothing a reader can see. */
  lemma CloseTailOk(s: State)
    requires Ok(s)
    ensures s.pages[TailPage(s)].write <= PAGE_WORDS
    ensures var t := OnTail(s, Close(s.pages[TailPage(s)]), s.writeStamp);
            Ok(t) && Readable(t) == Readable(s) && Unread(t) == Unread(s) && 0 < t.pages[TailPage(t)].commit
  {
    if s.tailAt < 0 {
      var p := s.pages[TailPage(s)];
      CloseOk(p);
      CloseReader(p, s.readStamp);
      OnTailOnReader(s, Close(p), s.writeStamp);
    } else {
      CloseInRing(s);
    }
  }

  lemma CloseQueued(s: State)
    requires Ok(s)
    ensures s.pages[TailPage(s)].write <= PAGE_WORDS
    ensures var t := OnTail(s, Close(s.pages[TailPage(s)]), s.writeStamp);
            Concat(t.pages, Used(t)) == Concat(s.pages, Used(s))
  {
    TailSound(s);
    if 0 <= s.tailAt {
      assert UsedOk(s, s.tailAt);
      CloseOk(s.pages[TailPage(s)]);
      UsedSplit(s);
      OnTailFilled(s, Close(s.pages[TailPage(s)]), s.writeStamp);
    }
  }

  // The tail moves to the next page, which is emptied.  When that page is the head page, its events
  // are overwritten and the page after it becomes the head page.
  function NextPage(s: State, now: nat): State
    requires Linked(s)
  {
    var wraps := s.tailAt == |s.ring| - 1;
    var next := if wraps then s.ring[0] else s.ring[s.tailAt + 1];
    s.(pages := s.pages[next := s.pages[next].(write := 0, entries := 0, commit := 0, stamp := now)],
       ring := if wraps then s.ring[1..] + [s.ring[0]] else s.ring,
       tailAt := if wraps then s.tailAt else s.tailAt + 1,
       writeStamp := now)
  }

  lemma NextPageEmpty(s: State, now: nat)
    requires Linked(s) && ReaderOk(s)
    ensures var t := NextPage(s, now);
            && Linked(t) && t.pages[TailPage(t)].write == t.pages[TailPage(t)].commit == t.pages[TailPage(t)].entries == 0
            && t.pages[t.readerPage] == s.pages[s.readerPage] && ReaderOk(t) && Stamped(t) && Unread(t) == Unread(s)
  {
    var t := NextPage(s, now);
    if s.tailAt == |s.ring| - 1 {
      assert t.ring[t.tailAt] == s.ring[0];
    }
  }

  lemma EmptyPage(p: Page)
    requires p.write == p.commit == 0
    ensures PageOk(p) && Records(p) == []
  {
  }

  lemma FreshLinks(s: State, now: nat)
    requires Linked(s) && s.tailAt < |s.ring| - 1
    ensures var t := NextPage(s, now);
            && Linked(t) && t.tailAt == s.tailAt + 1 && t.ring[..t.tailAt] == Used(s)
            && (forall i | 0 <= i < t.tailAt :: SamePage(s, t, i, false))
            && (forall id | 0 <= id < |s.pages| && id in Used(s) :: t.pages[id] == s.pages[id])
  {
  }

  lemma FreshFilled(s: State, now: nat)
    requires Linked(s) && Filled(s) && 0 < s.pages[TailPage(s)].commit && s.tailAt < |s.ring| - 1
    ensures var t := NextPage(s, now); Linked(t) && Filled(t) && Concat(t.pages, Used(t)) == Concat(s.pages, Used(s))
  {
    var t := NextPage(s, now);
    FreshLinks(s, now);
    EmptyPage(t.pages[TailPage(t)]);
    FilledBy(s, t, false);
    ConcatSame(s.pages, t.pages, Used(s));
    UsedSplit(t);
  }

  // A full ring turns by one page: the head page, emptied, becomes the tail page.
  lemma WrapLinks(s: State, now: nat)
    requires Linked(s) && s.tailAt == |s.ring| - 1
    ensures var t := NextPage(s, now);
            && Linked(t) && t.tailAt == s.tailAt && Used(s) == s.ring && t.ring[..t.tailAt] == Used(s)[1..]
            && (forall i | 0 <= i < t.tailAt :: SamePage(s, t, i, true))
            && (forall id | 0 <= id < |s.pages| && id in Used(s)[1..] :: t.pages[id] == s.pages[id])
  {
  }

  lemma WrapFilled(s: State, now: nat)
    requires Linked(s) && Filled(s) && 0 < s.pages[TailPage(s)].commit && s.tailAt == |s.ring| - 1
    ensures var t := NextPage(s, now);
            && Linked(t) && Filled(t) && UsedOk(s, 0)
            && Concat(s.pages, Used(s)) == Records(s.pages[s.ring[0]]) + Concat(t.pages, Used(t))
  {
    var t := NextPage(s, now);
    WrapLinks(s, now);
    assert UsedOk(s, 0);
    EmptyPage(t.pages[TailPage(t)]);
    FilledBy(s, t, true);
    ConcatFirst(s.pages, Used(s));
    ConcatSame(s.pages, t.pages, Used(s)[1..]);
    UsedSplit(t);
  }

  lemma NextPageWraps(s: State, now: nat)
    requires Ok(s) && 0 < s.pages[TailPage(s)].commit && s.tailAt == |s.ring| - 1
    ensures var t := NextPage(s, now);
            && Ok(t) && Unread(t) == Unread(s)
            && PageOk(s.pages[s.ring[0]]) && s.pages[s.ring[0]].entries == |Records(s.pages[s.ring[0]])|
            && Concat(s.pages, Used(s)) == Records(s.pages[s.ring[0]]) + Concat(t.pages, Used(t))
  {
    NextPageEmpty(s, now);
    WrapFilled(s, now);
  }
}
