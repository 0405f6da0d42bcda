/**
 The per-CPU trace ring buffer used by one writer and one reader in turn: reserving, filling and
 committing an event is one call, consuming one is another.  Clock readings are arguments.
 */
module RingBuffer {
  import opened Arithmetic
  import opened RingPage
  import opened RingState
  import opened RingReserve
  import opened RingSearch
  import opened RingHistory

  datatype Option<T> = None | Some(value: T)

  // The recorded delta gives the time back exactly if it fits its fields.
  lemma StampExact(p: Page, writeStamp: nat, ts: nat, delta: Delta)
    requires var d := if p.write == 0 || ts < writeStamp then 0 else ts - writeStamp;
             delta.low == d % TS_RANGE && (d < TS_RANGE * WORD_RANGE <==> DeltaValue(delta) == d)
    ensures p.write == 0 ==> delta.low == 0
    ensures NewStamp(p, NeedsExtend(writeStamp, ts), delta, writeStamp, ts) == ts
            <==> p.write == 0 || writeStamp <= ts < writeStamp + TS_RANGE * WORD_RANGE
  {
    if p.write != 0 && writeStamp <= ts < writeStamp + TS_RANGE {
      SmallMod(ts - writeStamp, TS_RANGE);
    }
  }

  // What is recorded for an event on page `p` gives its time back, unless the clock has run backwards or too far ahead.
  predicate DeltaIs(p: Page, writeStamp: nat, ts: nat, delta: Delta) {
    && (p.write == 0 ==> delta.low == 0)
    && (NewStamp(p, NeedsExtend(writeStamp, ts), delta, writeStamp, ts) == ts
        <==> p.write == 0 || writeStamp <= ts < writeStamp + TS_RANGE * WORD_RANGE)
  }

  lemma SomePayload(length: nat)
    ensures PayloadWords(length) > 0
  {
  }

  function AfterPut(s: State, addStamp: bool, delta: Delta, payload: seq<Word>, ts: nat): State
    requires -1 <= s.tailAt < |s.ring| && TailPage(s) < |s.pages|
    requires payload != [] && EndOf(s.pages[TailPage(s)].write, addStamp, payload) <= PAGE_WORDS
  {
    var p := s.pages[TailPage(s)];
    OnTail(s, Put(p, addStamp, delta, payload, ts), NewStamp(p, addStamp, delta, s.writeStamp, ts))
  }

  // Committing an event.
  lemma PutKept(s: State, addStamp: bool, delta: Delta, payload: seq<Word>, ts: nat, h: History, readable: seq<Record>)
    requires Ok(s) && payload != [] && EndOf(s.pages[TailPage(s)].write, addStamp, payload) <= PAGE_WORDS
    requires s.pages[TailPage(s)].write == 0 && !addStamp ==> delta.low == 0
    requires Kept(h, readable) && readable == Readable(s)
    ensures var t := AfterPut(s, addStamp, delta, payload, ts);
            var e := Record(t.writeStamp, payload);
            Ok(t) && Readable(t) == readable + [e] && Kept(Committed(h, e), readable + [e])
  {
    PutEventOk(s, addStamp, delta, payload, ts);
    CommittedKept(h, readable, Record(AfterPut(s, addStamp, delta, payload, ts).writeStamp, payload));
  }

  // Consuming the event the reader stands on.
  lemma TakeFirst(s: State, h: History, readable: seq<Record>)
    requires Ok(s) && Kept(h, readable) && readable == Readable(s)
    requires var p := s.pages[s.readerPage]; p.read < p.commit && IsData(p.data, p.read)
    ensures var p := s.pages[s.readerPage];
            && p.read + 1 < PAGE_WORDS && p.read + EventWords(p.data, p.read) <= PAGE_WORDS
            && (p.data[p.read].typeLen == 0 ==> 2 <= EventWords(p.data, p.read))
            && readable != [] && readable[0] == Record(s.readStamp + p.data[p.read].delta, Payload(p.data, p.read))
  {
    AdvanceOk(s);
  }

  // What can stand at the read position, and what follows a time extend.
  lemma SkipTypes(p: Page)
    requires AtEvent(p) && p.read < p.commit
    ensures p.read + 1 < p.commit && p.data[p.read].typeLen <= RINGBUF_TYPE_TIME_EXTEND
    ensures 0 < EventWords(p.data, p.read) && Skip(p).read <= p.commit
    ensures p.data[p.read].typeLen == RINGBUF_TYPE_TIME_EXTEND ==> Skip(p).read < p.commit && IsData(p.data, Skip(p).read)
  {
  }

  lemma BlankOk(s: State)
    requires Linked(s) && s.tailAt == 0
    requires forall i | 0 <= i < |s.pages| ::
               s.pages[i].write == s.pages[i].commit == s.pages[i].read == s.pages[i].entries == 0 && s.pages[i].stamp == s.writeStamp
    ensures Ok(s) && Quiet(s) && Readable(s) == []
    ensures Kept(History([], [], [], []), [])
  {
    forall x: nat ensures OneFate(0, [], [], [], x) { }
    assert s.ring[..0] == [] && Concat(s.pages, []) == [];
    UsedSplit(s);
  }

  lemma QuietReader(s: State)
    requires Linked(s) && Quiet(s)
    ensures Quiet(TakeHead(s))
    ensures s.pages[s.readerPage].read + 1 < PAGE_WORDS ==> Quiet(Advance(s))
  {
    forall id | 0 <= id < |s.pages|
      ensures QuietAt(TakeHead(s), id) && (s.pages[s.readerPage].read + 1 < PAGE_WORDS ==> QuietAt(Advance(s), id))
    {
      assert QuietAt(s, id);
    }
  }

  /// The books

  // What there is to read, how it came about, and the counters that go with it.
  datatype Ledger = Ledger(history: History, readable: seq<Record>, entries: nat, overrun: nat, readCount: nat)

  // The accounts agree with the history, whatever the buffer holds.
  ghost predicate Balanced(b: Ledger) {
    match b
    case Ledger(history, readable, entries, overrun, readCount) =>
      && Kept(history, readable)
      && entries == |history.log| && overrun == |history.lost| && readCount == |history.taken|
  }

  // The books are in order.
  ghost predicate Books(s: State, b: Ledger) {
    match b
    case Ledger(_, readable, _, _, _) => Ok(s) && readable == Readable(s) && Balanced(b)
  }

  // `n` events from the `i`th on are overwritten.
  function Losing(b: Ledger, i: nat, n: nat): Ledger
    requires i + n <= |b.readable| == |b.history.live|
  {
    b.(history := Overwritten(b.history, i, i + n), readable := b.readable[..i] + b.readable[i + n..], overrun := b.overrun + n)
  }

  // The oldest event is consumed.
  function Taking(b: Ledger): Ledger
    requires b.readable != [] && b.history.live != []
  {
    b.(history := Consumed(b.history), readable := b.readable[1..], readCount := b.readCount + 1)
  }

  lemma TakeBooked(s: State, b: Ledger)
    requires Books(s, b) && var p := s.pages[s.readerPage]; p.read < p.commit && IsData(p.data, p.read)
    ensures s.pages[s.readerPage].read + 1 < PAGE_WORDS && b.readable != [] && b.history.live != []
    ensures Books(Advance(s), Taking(b))
  {
    AdvanceOk(s);
    ConsumedKept(b.history, b.readable);
  }

  // The events `gone` are overwritten: they stood right after those the reader has left on its own page.
  lemma LosingCounted(b: Ledger, unread: seq<Record>, gone: seq<Record>, rest: seq<Record>)
    requires Balanced(b) && b.readable == unread + (gone + rest)
    ensures |unread| + |gone| <= |b.readable| == |b.history.live|
    ensures var l := Losing(b, |unread|, |gone|); Balanced(l) && l.readable == unread + rest
  {
    Slices(b.history, b.readable, unread, gone, rest);
  }

  lemma LosingBooked(s: State, t: State, b: Ledger, gone: seq<Record>)
    requires Books(s, b) && Loses(s, t, gone)
    ensures |Unread(s)| + |gone| <= |b.readable| == |b.history.live| && Books(t, Losing(b, |Unread(s)|, |gone|))
  {
    var unread, rest := Unread(s), Queued(t);
    assert b.readable == unread + (gone + rest) && Readable(t) == unread + rest;
    LosingCounted(b, unread, gone, rest);
  }

  lemma Slices(h: History, readable: seq<Record>, a: seq<Record>, b: seq<Record>, c: seq<Record>)
    requires Kept(h, readable) && readable == a + (b + c)
    ensures var i, j := |a|, |a| + |b|;
            && j <= |readable| == |h.live|
            && readable[..i] + readable[j..] == a + c
            && Kept(Overwritten(h, i, j), a + c)
  {
    assert a + (b + c) == a + b + c;
    OverwrittenKept(h, a, b, c);
  }

  lemma BooksStay(s: State, b: Ledger)
    requires Books(s, b)
    ensures |Unread(s)| <= |b.readable| == |b.history.live| && Losing(b, |Unread(s)|, 0) == b
  {
    OverwriteNothing(b.history, b.readable, |Unread(s)|);
  }

  /// Storing

  // Event `e` is committed.
  function Adding(b: Ledger, e: Record): Ledger {
    b.(history := Committed(b.history, e), readable := b.readable + [e], entries := b.entries + 1)
  }

  lemma StoreBooked(s: State, c: int, b: Ledger, addStamp: bool, delta: Delta, payload: seq<Word>, ts: nat) returns (e: Record)
    requires Lags(s, c) && Books(Settle(s, c), b) && (c < s.tailAt ==> s.pages[TailPage(s)].write == 0)
    requires payload != [] && EndOf(s.pages[TailPage(s)].write, addStamp, payload) <= PAGE_WORDS
    requires s.pages[TailPage(s)].write == 0 && !addStamp ==> delta.low == 0
    ensures var t := Store(s, c, addStamp, delta, payload, ts);
            && Lags(t, c) && e == Record(Settle(t, c).writeStamp, payload) && Books(Settle(t, c), Adding(b, e))
            && e.ts == NewStamp(s.pages[TailPage(s)], addStamp, delta, s.writeStamp, ts)
  {
    SettleStore(s, c, addStamp, delta, payload, ts);
    PutKept(Settle(s, c), addStamp, delta, payload, ts, b.history, b.readable);
    e := Record(Settle(Store(s, c, addStamp, delta, payload, ts), c).writeStamp, payload);
  }

  // ... into the books after a search.
  lemma EndedStores(q: Quest, u: State, r: Reached, k: nat, gone: seq<Record>, b: Ledger, delta: Delta) returns (e: Record)
    requires Ended(q, u, r, k, false, gone) && FitsAt(q, k) && q.payload != [] && Books(AfterCommit(r), b)
    requires DeltaIs(r.s.pages[TailPage(r.s)], r.s.writeStamp, Reading(q.clock, 2 * k), delta)
    ensures var ts, p := Reading(q.clock, 2 * k), r.s.pages[TailPage(r.s)];
            var addStamp := NeedsExtend(r.s.writeStamp, ts);
            && EndOf(p.write, addStamp, q.payload) <= PAGE_WORDS
            && var t := Settle(Store(r.s, r.c, addStamp, delta, q.payload, ts), r.c);
               && e == Record(t.writeStamp, q.payload) && Books(t, Adding(b, e))
               && (e.ts == ts <==> 0 < k || q.used == 0 || q.stamp <= ts < q.stamp + TS_RANGE * WORD_RANGE)
  {
    var ts := Reading(q.clock, 2 * k);
    e := StoreBooked(r.s, r.c, b, NeedsExtend(r.s.writeStamp, ts), delta, q.payload, ts);
  }

  datatype Peeked = Nothing | Padding | Event
  datatype Outcome = Reserved | Again | Stopped

  class Buffer {
    const overwrite: bool

    var pages: seq<Page>
    var ring: seq<nat>             // the ring pages in link order, head page first
    var readerPage: nat
    var tailAt: int                // place of the tail page in the ring, -1 when it is the reader's page
    var commitAt: int              // place of the commit page, likewise
    var entries: nat
    var overrun: nat
    var commitOverrun: nat
    var droppedEvents: nat
    var readCount: nat
    var writeStamp: nat
    var readStamp: nat
    var recordDisabled: bool

    ghost var history: History
    ghost var readable: seq<Record>  // what a reader will get, in this order

    ghost function View(): State
      reads this
    {
      State(pages, ring, readerPage, tailAt, writeStamp, readStamp)
    }

    ghost function Account(): Ledger
      reads this
    {
      Ledger(history, readable, entries, overrun, readCount)
    }

    // Between calls.
    ghost predicate Valid()
      reads this
    {
      && Books(View(), Account())
      && commitAt == tailAt && Quiet(View())
    }

    /** Every committed event is consumed, overwritten or still readable, and the counters say so;
        events were consumed in the order in which they were committed. */
    lemma Conservation()
      requires Valid()
      ensures entries == readCount + overrun + |readable|
      ensures Partition(|history.log|, history.taken, history.lost, history.live)
      ensures |readable| == |history.live|
      ensures forall i | 0 <= i < |readable| :: history.live[i] < |history.log| && readable[i] == history.log[history.live[i]]
      ensures forall i | 0 <= i < |history.taken| :: history.taken[i] < |history.log|
      ensures forall i, j | 0 <= i < j < |history.taken| :: history.taken[i] < history.taken[j]
    {
      KeptBounds(history, readable);
      forall i, j | 0 <= i < j < |history.taken|
        ensures history.taken[i] < history.taken[j]
      {
        assert Less(history.taken + history.live, i, j);
      }
      forall i | 0 <= i < |readable|
        ensures history.live[i] < |history.log| && readable[i] == history.log[history.live[i]]
      {
        assert NameOf(history.log, history.live, i, readable[i]);
      }
    }

    constructor (nrPages: nat, overwrite: bool)
      requires 2 <= nrPages
      ensures Valid() && this.overwrite == overwrite && |ring| == nrPages && !recordDisabled
      ensures history.log == [] && readable == []
    {
      this.overwrite := overwrite;
      var blank := Page(seq(PAGE_WORDS, _ => Word(0, 0)), 0, 0, 0, 0, 0);
      pages := seq(nrPages + 1, _ => blank);
      ring := seq(nrPages, i => i);
      readerPage, tailAt, commitAt := nrPages, 0, 0;
      entries, overrun, commitOverrun, droppedEvents, readCount := 0, 0, 0, 0, 0;
      writeStamp, readStamp, recordDisabled := 0, 0, false;
      history, readable := History([], [], [], []), [];
      new;
      BlankOk(View());
    }

    // The type of the event the reader stands on.
    ghost predicate Standing(data: bool)
      reads this
    {
      && readerPage < |pages| && pages[readerPage].read < pages[readerPage].commit <= PAGE_WORDS
      && (data <==> IsData(pages[readerPage].data, pages[readerPage].read))
    }

    // How much the reader still has before it: ring pages first, then words of its own page.
    ghost function Ahead(): int
      reads this
    {
      if readerPage < |pages| then 1021 * (tailAt + 1) + 1020 - pages[readerPage].read else 0
    }

    // The reader page, used up and reset, replaces the head page in the ring.
    method SwapIn()
      requires Linked(View())
      modifies this`pages, this`ring, this`readerPage, this`tailAt, this`commitAt, this`readStamp
      ensures View() == TakeHead(old(View())) && commitAt == old(commitAt) - 1
    {
      var h, r := ring[0], readerPage;
      pages := pages[r := pages[r].(write := 0, entries := 0, commit := 0)];
      readStamp := pages[h].stamp;
      pages := pages[h := pages[h].(read := 0)];
      ring := ring[1..] + [r];
      readerPage, tailAt, commitAt := h, tailAt - 1, commitAt - 1;
    }

    // rb_get_reader_page: make sure the reader stands on an event, taking the head page if it must.
    method GetReaderPage() returns (found: bool)
      requires Valid()
      modifies this`pages, this`ring, this`readerPage, this`tailAt, this`commitAt, this`readStamp
      ensures Valid()
      ensures found <==> pages[readerPage].read < pages[readerPage].commit
      ensures !found ==> readable == []
      ensures 0 <= Ahead() <= old(Ahead())
    {
      if pages[readerPage].read < pages[readerPage].commit {
        return true;
      }
      // The commit is still on the reader's page.
      if commitAt < 0 {
        return false;
      }
      KeptBounds(history, readable);
      if entries - (overrun + readCount) == 0 {
        return false;
      }
      TakeHeadOk(View());
      QuietReader(View());
      SwapIn();
      // The second round always finds the page it just took worth reading, if only for its padding.
      return pages[readerPage].read < pages[readerPage].commit;
    }

    // rb_advance_reader: step over one event; data events count as read.
    method AdvanceReader()
      requires Linked(View()) && pages[readerPage].read + 1 < PAGE_WORDS
      modifies this`pages, this`readStamp, this`readCount
      ensures View() == Advance(old(View()))
      ensures readCount == old(readCount) + (if old(IsData(pages[readerPage].data, pages[readerPage].read)) then 1 else 0)
    {
      var p := pages[readerPage];
      if IsData(p.data, p.read) {
        readCount := readCount + 1;
      }
      readStamp := readStamp + StampDelta(p.data, p.read);
      pages := pages[readerPage := p.(read := p.read + EventWords(p.data, p.read))];
    }

    // Step over a time extend or over padding.
    method SkipEvent()
      requires Valid() && Standing(false)
      modifies this`pages, this`readStamp, this`readCount
      ensures Valid() && readCount == old(readCount) && 0 <= Ahead() < old(Ahead())
      ensures old(pages[readerPage].data[pages[readerPage].read].typeLen) == RINGBUF_TYPE_TIME_EXTEND ==> Standing(true)
    {
      AdvanceOk(View());
      QuietReader(View());
      SkipTypes(pages[readerPage]);
      AdvanceReader();
    }

    // rb_buffer_peek: the next event that is not a time extend.
    method Peek() returns (kind: Peeked)
      requires Valid()
      modifies this`pages, this`ring, this`readerPage, this`tailAt, this`commitAt, this`readStamp, this`readCount
      ensures Valid() && readCount == old(readCount) && 0 <= Ahead() <= old(Ahead())
      ensures kind.Nothing? ==> readable == []
      ensures kind.Event? ==> Standing(true)
      ensures kind.Padding? ==> Standing(false)
    {
      var found := GetReaderPage();
      if !found {
        return Nothing;
      }
      SkipTypes(pages[readerPage]);
      var t := pages[readerPage].data[pages[readerPage].read].typeLen;
      if t == RINGBUF_TYPE_TIME_EXTEND {
        SkipEvent();
        return Event;
      }
      return if t == RINGBUF_TYPE_PADDING then Padding else Event;
    }

    /** ring_buffer_consume: the oldest readable event, exactly as it was committed, or none if the
        buffer is empty. */
    method Consume() returns (r: Option<Record>)
      requires Valid()
      modifies this`pages, this`ring, this`readerPage, this`tailAt, this`commitAt, this`readStamp, this`readCount, this`history, this`readable
      ensures Valid()
      ensures r.None? ==> old(readable) == readable == [] && history == old(history)
      ensures r.Some? ==>
                && old(history.live) != [] && history == Consumed(old(history))
                && old(readable) == [r.value] + readable
    {
      var kind := Peek();
      while kind.Padding?
        invariant Valid() && 0 <= Ahead()
        invariant readable == old(readable) && history == old(history)
        invariant kind.Nothing? ==> readable == []
        invariant kind.Event? ==> Standing(true)
        invariant kind.Padding? ==> Standing(false)
        decreases Ahead()
      {
        SkipEvent();
        kind := Peek();
      }
      if kind.Nothing? {
        return None;
      }
      var e := ConsumeData();
      r := Some(e);
    }

    // The data event at the read position, with its time stamp.
    method EventHere() returns (e: Record)
      requires Valid() && Standing(true)
      ensures readable != [] && e == readable[0]
    {
      TakeFirst(View(), history, readable);
      var p := pages[readerPage];
      e := Record(readStamp + p.data[p.read].delta, Payload(p.data, p.read));
    }

    method ConsumeData() returns (e: Record)
      requires Valid() && Standing(true)
      modifies this`pages, this`readStamp, this`readCount, this`history, this`readable
      ensures Valid()
      ensures old(history.live) != [] && history == Consumed(old(history)) && old(readable) == [e] + readable
    {
      e := EventHere();
      TakeBooked(View(), Account());
      QuietReader(View());
      ghost var s, b := Advance(View()), Taking(Account());
      AdvanceReader();
      history, readable := b.history, b.readable;
      assert View() == s && Account() == b;
    }

    // rb_reset_tail: what is left of the tail page becomes padding.
    method CloseTail()
      requires Linked(View()) && pages[TailPage(View())].write <= PAGE_WORDS
      modifies this`pages
      ensures View() == PadTail(old(View()))
    {
      var tail := if tailAt < 0 then readerPage else ring[tailAt];
      pages := pages[tail := Pad(pages[tail])];
    }

    // rb_handle_head_page and rb_tail_page_update.
    method MoveOn(now: nat)
      requires Linked(View())
      modifies this`pages, this`ring, this`tailAt, this`commitAt, this`overrun
      ensures View() == Move(old(View()), now) && commitAt == Moved(old(View()), old(commitAt))
      ensures overrun == old(overrun) + (if old(tailAt < |ring| - 1) then 0 else old(pages[ring[0]].entries))
    {
      var next := ring[0];
      if tailAt == |ring| - 1 {
        overrun := overrun + pages[next].entries;
        ring := ring[1..] + [next];
        commitAt := commitAt - 1;
      } else {
        next := ring[tailAt + 1];
        tailAt := tailAt + 1;
      }
      pages := pages[next := pages[next].(write := 0, entries := 0, commit := 0, stamp := now)];
    }

    // rb_move_tail: close the page and move to the next one, unless that is the commit page, or the head page
    // while the commit is with the reader or events must not be overwritten.
    method MakeRoom(now: nat) returns (again: bool)
      requires Linked(View()) && commitAt <= tailAt && pages[TailPage(View())].write <= PAGE_WORDS
      modifies this`pages, this`ring, this`tailAt, this`commitAt, this`overrun, this`commitOverrun, this`droppedEvents
      ensures again <==> CanMove(old(View()), old(commitAt), overwrite)
      ensures View() == Tried(old(View()), old(commitAt), overwrite, now)
      ensures commitAt == TriedAt(old(View()), old(commitAt), overwrite)
      ensures overrun == old(overrun) + Pushed(old(View()), old(commitAt), overwrite)
      ensures commitOverrun == old(commitOverrun) + (if !again && commitAt <= 0 then 1 else 0)
      ensures droppedEvents == old(droppedEvents) + (if !again && commitAt > 0 then 1 else 0)
    {
      again := tailAt < |ring| - 1;
      if !again {
        if commitAt <= 0 {
          commitOverrun := commitOverrun + 1;
        } else if !overwrite {
          droppedEvents := droppedEvents + 1;
        } else {
          again := true;
        }
      }
      CloseTail();
      if again {
        MoveOn(now);
      }
    }

    // Whether the event fits on the tail page with the clock at `ts`.
    method HasRoom(payload: seq<Word>, ts: nat) returns (ok: bool)
      requires Linked(View())
      ensures ok <==> EndOf(pages[TailPage(View())].write, NeedsExtend(writeStamp, ts), payload) <= PAGE_WORDS
    {
      var tail := if tailAt < 0 then readerPage else ring[tailAt];
      ok := EndOf(pages[tail].write, NeedsExtend(writeStamp, ts), payload) <= PAGE_WORDS;
    }

    // Where the buffer is now.
    ghost predicate At(r: Reached, overrun0: nat)
      reads this
    {
      View() == r.s && commitAt == r.c && overrun == overrun0 + r.lost
    }

    // Attempt `k`: if there is no room on the tail page, try to make some.
    method Attempt(payload: seq<Word>, clock: seq<nat>, k: nat, ghost q: Quest, ghost u: State, ghost r: Reached, ghost gone: seq<Record>)
      returns (o: Outcome, ghost r': Reached, ghost gone': seq<Record>)
      requires Seeking(q, r, k) && Costs(q, u, r, gone) && View() == r.s && commitAt == r.c
      requires q.payload == payload && q.clock == clock && q.overwrite == overwrite
      modifies this`pages, this`ring, this`tailAt, this`commitAt, this`overrun, this`commitOverrun, this`droppedEvents
      ensures (o.Reserved? <==> FitsAt(q, k)) && (o.Stopped? ==> k == q.room)
      ensures View() == r'.s && commitAt == r'.c && overrun == old(overrun) + (r'.lost - r.lost)
      ensures Costs(q, u, r', gone')
      ensures o.Reserved? ==> Seeking(q, r', k)
      ensures o.Again? ==> Seeking(q, r', k + 1)
      ensures o.Stopped? ==> Sought(q, r', 0)
      ensures commitOverrun == old(commitOverrun) + (if o.Stopped? && r'.c <= 0 then 1 else 0)
      ensures droppedEvents == old(droppedEvents) + (if o.Stopped? && r'.c > 0 then 1 else 0)
    {
      QuestLooks(q, r, k);
      var found := HasRoom(payload, Reading(clock, 2 * k));
      if found {
        return Reserved, r, gone;
      }
      r' := Turn(q, r, k);
      gone' := TurnCosts(q, u, r, k, r', gone);
      var again := MakeRoom(Reading(clock, 2 * k + 1));
      o := if again then Again else Stopped;
    }

    // The loop of rb_reserve_next_event, up to the attempt that finds room.
    method FindRoom(payload: seq<Word>, clock: seq<nat>, ghost q: Quest, ghost u: State)
      returns (o: Outcome, k: nat, ghost r: Reached, ghost gone: seq<Record>)
      requires Seeking(q, Reached(View(), commitAt, 0), 0) && Costs(q, u, Reached(View(), commitAt, 0), [])
      requires q.payload == payload && q.clock == clock && q.overwrite == overwrite
      modifies this`pages, this`ring, this`tailAt, this`commitAt, this`overrun, this`commitOverrun, this`droppedEvents
      ensures At(r, old(overrun)) && k <= MAX_ATTEMPTS && Costs(q, u, r, gone) && NoneFits(q, if o.Stopped? then k + 1 else k)
      ensures o.Reserved? ==> k < MAX_ATTEMPTS && FitsAt(q, k) && Seeking(q, r, k)
      ensures o.Again? ==> k == MAX_ATTEMPTS && Seeking(q, r, k)
      ensures o.Stopped? ==> k == q.room < MAX_ATTEMPTS && Sought(q, r, 0)
      ensures commitOverrun == old(commitOverrun) + (if o.Stopped? && r.c <= 0 then 1 else 0)
      ensures droppedEvents == old(droppedEvents) + (if o.Stopped? && r.c > 0 then 1 else 0)
    {
      o, k, r, gone := Again, 0, Reached(View(), commitAt, 0), [];
      while k < MAX_ATTEMPTS
        invariant k <= MAX_ATTEMPTS && NoneFits(q, k) && At(r, old(overrun)) && o.Again?
        invariant Seeking(q, r, k) && Costs(q, u, r, gone)
        invariant commitOverrun == old(commitOverrun) && droppedEvents == old(droppedEvents)
      {
        o, r, gone := Attempt(payload, clock, k, q, u, r, gone);
        if o.Reserved? {
          return;
        }
        NoneFitsNext(q, k);
        if o.Stopped? {
          return;
        }
        k := k + 1;
      }
    }

    // Header, payload, time stamp of a fresh page, counters; the write stamp only on the commit page.
    method FillEvent(payload: seq<Word>, addStamp: bool, delta: Delta, ts: nat)
      requires Linked(View()) && payload != [] && EndOf(pages[TailPage(View())].write, addStamp, payload) <= PAGE_WORDS
      modifies this`pages, this`writeStamp, this`entries
      ensures View() == Store(old(View()), commitAt, addStamp, delta, payload, ts) && entries == old(entries) + 1
    {
      var tail := if tailAt < 0 then readerPage else ring[tailAt];
      var p := pages[tail];
      pages := pages[tail := Put(p, addStamp, delta, payload, ts).(commit := p.commit)];
      if commitAt == tailAt {
        writeStamp := NewStamp(p, addStamp, delta, writeStamp, ts);
      }
      entries := entries + 1;
    }

    // The time delta of an event on page `p`.  It is exact unless the clock ran backwards or more than 59 bits ahead.
    method DeltaFor(p: Page, ts: nat) returns (delta: Delta)
      ensures DeltaIs(p, writeStamp, ts, delta)
    {
      delta := SplitDelta(if p.write == 0 || ts < writeStamp then 0 else ts - writeStamp);
      StampExact(p, writeStamp, ts, delta);
    }

    method AdvanceCommit()
      requires Linked(View()) && -1 <= commitAt < tailAt
      modifies this`pages, this`commitAt, this`writeStamp
      ensures View() == Advanced(old(View()), old(commitAt)) && commitAt == old(commitAt) + 1
    {
      var id := if commitAt < 0 then readerPage else ring[commitAt];
      pages := pages[id := pages[id].(commit := pages[id].write)];
      commitAt := commitAt + 1;
      writeStamp := pages[ring[commitAt]].stamp;
    }

    // The second loop of rb_set_commit_to_write: the tail page is committed as far as it is written.
    method CommitIndex()
      requires Linked(View())
      modifies this`pages
      ensures View() == Finished(old(View()))
    {
      var tail := if tailAt < 0 then readerPage else ring[tailAt];
      pages := pages[tail := pages[tail].(commit := pages[tail].write)];
    }

    // rb_set_commit_to_write: the commit page catches up with the tail page.
    method EndCommit()
      requires Lags(View(), commitAt)
      modifies this`pages, this`commitAt, this`writeStamp
      ensures View() == old(Settle(View(), commitAt)) && Quiet(View()) && commitAt == tailAt
    {
      ghost var s := View();
      while commitAt != tailAt
        invariant View() == s && Lags(s, commitAt) && Settle(s, commitAt) == old(Settle(View(), commitAt))
        decreases tailAt - commitAt
      {
        SettleAdvanced(s, commitAt);
        s := Advanced(s, commitAt);
        AdvanceCommit();
      }
      SettleFinished(s);
      CommitIndex();
    }

    // The event is written where there is room for it, and committed.
    method CommitEvent(payload: seq<Word>, ts: nat) returns (ghost delta: Delta)
      requires Lags(View(), commitAt) && payload != [] && EndOf(pages[TailPage(View())].write, NeedsExtend(writeStamp, ts), payload) <= PAGE_WORDS
      requires commitAt < tailAt ==> pages[TailPage(View())].write == 0
      modifies this`pages, this`commitAt, this`writeStamp, this`entries
      ensures View() == Settle(Store(old(View()), old(commitAt), NeedsExtend(old(writeStamp), ts), delta, payload, ts), old(commitAt))
      ensures Quiet(View()) && commitAt == tailAt && entries == old(entries) + 1
      ensures var p := old(pages[TailPage(View())]);
              DeltaIs(p, old(writeStamp), ts, delta)
    {
      ghost var s, c := View(), commitAt;
      var d := DeltaFor(pages[if tailAt < 0 then readerPage else ring[tailAt]], ts);
      delta := d;
      SettleStore(s, c, NeedsExtend(writeStamp, ts), delta, payload, ts);
      FillEvent(payload, NeedsExtend(writeStamp, ts), d, ts);
      EndCommit();
    }

    // A search from state `u` has ended here; `b` is what the books are to be.
    ghost predicate EndedAt(q: Quest, u: State, r: Reached, k: nat, stopped: bool, gone: seq<Record>, b: Ledger)
      reads this
    {
      && Ended(q, u, r, k, stopped, gone) && Books(AfterCommit(r), b) && View() == r.s && commitAt == r.c
      && entries == b.entries && overrun == b.overrun && readCount == b.readCount
    }

    // The search from beginning to end.
    method SeekRoom(payload: seq<Word>, clock: seq<nat>)
      returns (o: Outcome, k: nat, ghost q: Quest, ghost r: Reached, ghost gone: seq<Record>)
      requires Ok(View()) && Quiet(View()) && commitAt == tailAt
      modifies this`pages, this`ring, this`tailAt, this`commitAt, this`overrun, this`commitOverrun, this`droppedEvents
      ensures q == old(QuestFor(payload, clock, overwrite, View())) && k <= q.room && k <= MAX_ATTEMPTS
      ensures Ended(q, old(View()), r, k, o.Stopped?, gone) && At(r, old(overrun)) && NoneFits(q, if o.Stopped? then k + 1 else k)
      ensures o.Reserved? ==> k < MAX_ATTEMPTS && FitsAt(q, k)
      ensures o.Again? ==> k == MAX_ATTEMPTS
      ensures o.Stopped? ==> k == q.room < MAX_ATTEMPTS
      ensures commitOverrun == old(commitOverrun) + (if o.Stopped? && r.c <= 0 then 1 else 0)
      ensures droppedEvents == old(droppedEvents) + (if o.Stopped? && r.c > 0 then 1 else 0)
    {
      ghost var s := View();
      q := QuestFor(payload, clock, overwrite, s);
      QuestBegins(payload, clock, overwrite, s);
      o, k, r, gone := FindRoom(payload, clock, q, s);
      QuestEnds(q, s, r, k, o.Stopped?, gone);
    }

    // The search, and what it does to the books.
    method Seek(payload: seq<Word>, clock: seq<nat>)
      returns (o: Outcome, k: nat, ghost q: Quest, ghost r: Reached, ghost gone: seq<Record>, ghost b: Ledger)
      requires Valid()
      modifies this`pages, this`ring, this`tailAt, this`commitAt, this`overrun, this`commitOverrun, this`droppedEvents
      ensures q == old(QuestFor(payload, clock, overwrite, View())) && k <= q.room && k <= MAX_ATTEMPTS
      ensures EndedAt(q, old(View()), r, k, o.Stopped?, gone, b) && NoneFits(q, if o.Stopped? then k + 1 else k)
      ensures q.unread + |gone| <= |old(readable)| == |old(history.live)| && b == Losing(old(Account()), q.unread, |gone|)
      ensures o.Reserved? ==> k < MAX_ATTEMPTS && FitsAt(q, k)
      ensures o.Again? ==> k == MAX_ATTEMPTS
      ensures o.Stopped? ==> k == q.room < MAX_ATTEMPTS
      ensures commitOverrun == old(commitOverrun) + (if o.Stopped? && r.c <= 0 then 1 else 0)
      ensures droppedEvents == old(droppedEvents) + (if o.Stopped? && r.c > 0 then 1 else 0)
    {
      ghost var s, b0 := View(), Account();
      o, k, q, r, gone := SeekRoom(payload, clock);
      LosingBooked(s, AfterCommit(r), b0, gone);
      b := Losing(b0, |Unread(s)|, |gone|);
    }

    // The books follow.
    ghost method Rebook(b: Ledger)
      requires Books(View(), b) && Quiet(View()) && commitAt == tailAt
      requires entries == b.entries && overrun == b.overrun && readCount == b.readCount
      modifies this`history, this`readable
      ensures Valid() && Account() == b
    {
      history, readable := b.history, b.readable;
      assert Account() == b;
    }

    method CommitReserved(payload: seq<Word>, clock: seq<nat>, k: nat, ghost q: Quest, ghost u: State, ghost r: Reached, ghost gone: seq<Record>, ghost b: Ledger)
      requires EndedAt(q, u, r, k, false, gone, b) && FitsAt(q, k) && q.payload == payload != [] && q.clock == clock
      modifies this`pages, this`commitAt, this`writeStamp, this`entries, this`history, this`readable
      ensures Valid() && Account() == Adding(b, Record(writeStamp, payload))
      ensures var ts := Reading(clock, 2 * k); writeStamp == ts <==> 0 < k || q.used == 0 || q.stamp <= ts < q.stamp + TS_RANGE * WORD_RANGE
    {
      ghost var delta := CommitEvent(payload, Reading(clock, 2 * k));
      ghost var e := EndedStores(q, u, r, k, gone, b, delta);
      Rebook(Adding(b, e));
    }

    method CommitPadding(k: nat, stopped: bool, ghost q: Quest, ghost u: State, ghost r: Reached, ghost gone: seq<Record>, ghost b: Ledger)
      requires EndedAt(q, u, r, k, stopped, gone, b)
      modifies this`pages, this`commitAt, this`writeStamp, this`history, this`readable
      ensures Valid() && Account() == b
    {
      EndCommit();
      Rebook(b);
    }

    // The reservation, and the commit of the event or of the padding alone.
    method ReserveAndCommit(payload: seq<Word>, clock: seq<nat>) returns (o: Outcome, k: nat, ghost q: Quest, ghost lost: nat)
      requires Valid() && payload != []
      modifies this`pages, this`ring, this`tailAt, this`commitAt, this`writeStamp,
               this`entries, this`overrun, this`commitOverrun, this`droppedEvents, this`history, this`readable
      ensures Valid() && q == old(QuestFor(payload, clock, overwrite, View())) && k <= q.room && k <= MAX_ATTEMPTS
      ensures q.unread + lost <= |old(readable)| == |old(history.live)| && (lost == 0 || overwrite)
      ensures NoneFits(q, if o.Stopped? then k + 1 else k)
      ensures o.Reserved? ==> k < MAX_ATTEMPTS && FitsAt(q, k) && Account() == Adding(Losing(old(Account()), q.unread, lost), Record(writeStamp, payload))
      ensures o.Reserved? ==> var ts := Reading(clock, 2 * k);
                writeStamp == ts <==> 0 < k || q.used == 0 || q.stamp <= ts < q.stamp + TS_RANGE * WORD_RANGE
      ensures !o.Reserved? ==> Account() == Losing(old(Account()), q.unread, lost)
      ensures o.Again? ==> k == MAX_ATTEMPTS
      ensures o.Stopped? ==> k == q.room < MAX_ATTEMPTS && (overwrite && 0 <= q.at ==> |readable| == q.unread + q.held)
      ensures commitOverrun == old(commitOverrun) + (if o.Stopped? && (overwrite || q.at <= 0) then 1 else 0)
      ensures droppedEvents == old(droppedEvents) + (if o.Stopped? && !overwrite && 0 < q.at then 1 else 0)
    {
      ghost var u := View();
      ghost var r, gone, b;
      o, k, q, r, gone, b := Seek(payload, clock);
      lost := |gone|;
      if o.Reserved? {
        CommitReserved(payload, clock, k, q, u, r, gone, b);
      } else {
        CommitPadding(k, o.Stopped?, q, u, r, gone, b);
      }
    }

    // Some attempt within the writer's reach finds room.
    ghost predicate CanWrite(payload: seq<Word>, length: nat, clock: seq<nat>)
      requires Linked(View())
      reads this
    {
      && !recordDisabled && length <= BUF_MAX_DATA_SIZE
      && exists m: nat :: m < MAX_ATTEMPTS && m <= Room(View(), tailAt, overwrite)
                          && Fits(payload, pages[TailPage(View())].write, writeStamp, clock, m)
    }

    /** Reserving, filling and committing one event: it succeeds exactly if recording is on, the length is admitted, and
        one of the attempts finds room; the first of these, `k`, is where the event goes.  The event is then the last
        one readable, stamped with the clock reading of that attempt exactly when its page was fresh or the clock had
        moved on by less than 2^59 since the last event.  Whether it succeeds or not, what it overwrites is one stretch
        of the readable events, `lost` of them behind the `i` on the reader's page, all counted in `overrun`.  When it
        fails for want of room while overwriting, nothing is left but those `i` and the events on its own page. */
    method Write(payload: seq<Word>, length: nat, clock: seq<nat>) returns (ok: bool, k: nat, ghost i: nat, ghost lost: nat)
      requires Valid() && |payload| == PayloadWords(length) && |clock| == 2 * MAX_ATTEMPTS
      modifies this`pages, this`ring, this`tailAt, this`commitAt, this`writeStamp, this`entries,
               this`overrun, this`commitOverrun, this`droppedEvents, this`recordDisabled, this`history, this`readable
      ensures Valid()
      ensures ok <==> old(CanWrite(payload, length, clock))
      ensures i == |Unread(old(View()))| && i + lost <= |old(readable)| == |old(history.live)| && (lost == 0 || overwrite)
      ensures ok ==> Account() == Adding(Losing(old(Account()), i, lost), Record(writeStamp, payload))
      ensures ok ==> var ts := Reading(clock, 2 * k);
                writeStamp == ts <==> 0 < k || old(pages[TailPage(View())].write) == 0 || old(writeStamp) <= ts < old(writeStamp) + TS_RANGE * WORD_RANGE
      ensures !ok ==> Account() == Losing(old(Account()), i, lost)
      ensures !ok && (old(recordDisabled) || length > BUF_MAX_DATA_SIZE) ==>
                lost == 0 && View() == old(View()) && commitOverrun == old(commitOverrun) && droppedEvents == old(droppedEvents)
      ensures recordDisabled <==> old(recordDisabled) || (!ok && length <= BUF_MAX_DATA_SIZE && MAX_ATTEMPTS <= old(Room(View(), tailAt, overwrite)))
      ensures !ok && !recordDisabled && length <= BUF_MAX_DATA_SIZE ==>
                if overwrite || old(tailAt) <= 0 then commitOverrun == old(commitOverrun) + 1 else droppedEvents == old(droppedEvents) + 1
      ensures !ok && !recordDisabled && length <= BUF_MAX_DATA_SIZE && overwrite && 0 <= old(tailAt) ==>
                |readable| == i + old(pages[TailPage(View())].entries)
    {
      ok, k, i, lost := false, 0, |Unread(View())|, 0;
      if recordDisabled || length > BUF_MAX_DATA_SIZE {
        BooksStay(View(), Account());
        return;
      }
      SomePayload(length);
      var o;
      ghost var q;
      o, k, q, lost := ReserveAndCommit(payload, clock);
      assert forall m: nat :: Fits(payload, q.used, q.stamp, clock, m) <==> FitsAt(q, m);
      ok, i := o.Reserved?, q.unread;
      if o.Again? {
        recordDisabled := true;
      }
    }

    /** While recording is on and events may be overwritten, an admitted event is refused exactly if it is one of the
        longest and every attempt meets a clock that has moved on by 2^27 or more, but for a first attempt on a page in
        use. */
    lemma RefusedExactly(payload: seq<Word>, length: nat, clock: seq<nat>)
      requires Valid() && overwrite && !recordDisabled && length <= BUF_MAX_DATA_SIZE && |payload| == PayloadWords(length)
      ensures !CanWrite(payload, length, clock) <==>
              && length > BUF_MAX_DATA_SIZE - RB_LEN_TIME_EXTEND
              && (0 < pages[TailPage(View())].write || Late(writeStamp, clock, 0))
              && (forall m: nat | 0 < m < MAX_ATTEMPTS && m <= Room(View(), tailAt, overwrite) :: Late(writeStamp, clock, m))
    {
      var w := pages[TailPage(View())].write;
      TailNotOne(View());
      forall m: nat
        ensures length > BUF_MAX_DATA_SIZE - RB_LEN_TIME_EXTEND ==>
                  (Fits(payload, w, writeStamp, clock, m) <==> (0 < m || w == 0) && !Late(writeStamp, clock, m))
      {
        FitsExactly(payload, length, w, writeStamp, clock, m);
      }
      FitsExactly(payload, length, w, writeStamp, clock, 1);
    }
  }
}
