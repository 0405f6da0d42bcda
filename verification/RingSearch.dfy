/**
 How a writer of the trace ring buffer looks for room (rb_reserve_next_event, rb_move_tail): attempt after
 attempt it closes the tail page and moves to the next one, while the commit page stays where it is.
 */
module RingSearch {
  import opened RingPage
  import opened RingState
  import opened RingReserve

  // How often rb_reserve_next_event tries before it warns and switches recording off.
  const MAX_ATTEMPTS := 1000

  /// What fits

  // The clock has moved on by more than an event header can say (test_time_stamp).
  predicate NeedsExtend(writeStamp: nat, ts: nat) {
    writeStamp <= ts && TS_RANGE <= ts - writeStamp
  }

  // An event with `n` payload words fits on a page with nothing on it.
  predicate FitsBlank(n: nat, addStamp: bool) {
    EventSize(n) + (if addStamp then 2 else 0) <= PAGE_WORDS
  }

  // The successive readings of the clock: every attempt reads it, and so does every move of the tail.
  function Reading(clock: seq<nat>, i: nat): nat {
    if i < |clock| then clock[i] else 0
  }

  // At attempt `k` the clock has moved on so far that a time extend is needed.
  predicate Late(writeStamp: nat, clock: seq<nat>, k: nat) {
    NeedsExtend(writeStamp, Reading(clock, 2 * k))
  }

  // Attempt `k` to reserve an event finds room: the first one `w` words into the tail page, the others on a page
  // with nothing on it.
  predicate Fits(payload: seq<Word>, w: nat, writeStamp: nat, clock: seq<nat>, k: nat) {
    EndOf(if k == 0 then w else 0, Late(writeStamp, clock, k), payload) <= PAGE_WORDS
  }

  /** Not every payload that ring_buffer_lock_reserve admits can be written: together with a time extend,
      the last eight bytes below BUF_MAX_DATA_SIZE do not fit on any page, however many pages are tried. */
  lemma AdmittedFitsExactly(length: nat, addStamp: bool, payload: seq<Word>)
    requires length <= BUF_MAX_DATA_SIZE && |payload| == PayloadWords(length)
    ensures FitsBlank(|payload|, addStamp) <==> !addStamp || length <= BUF_MAX_DATA_SIZE - RB_LEN_TIME_EXTEND
    ensures !FitsBlank(|payload|, addStamp) ==> forall index: nat :: EndOf(index, addStamp, payload) > PAGE_WORDS
  {
    LengthInWords(length);
  }

  /** So a payload that long finds room exactly on a page with nothing on it and without a time extend, and any other
      admitted one on every page with nothing on it. */
  lemma FitsExactly(payload: seq<Word>, length: nat, w: nat, writeStamp: nat, clock: seq<nat>, k: nat)
    requires length <= BUF_MAX_DATA_SIZE && |payload| == PayloadWords(length) && w != 1
    ensures length > BUF_MAX_DATA_SIZE - RB_LEN_TIME_EXTEND ==>
              (Fits(payload, w, writeStamp, clock, k) <==> (0 < k || w == 0) && !Late(writeStamp, clock, k))
    ensures length <= BUF_MAX_DATA_SIZE - RB_LEN_TIME_EXTEND && 0 < k ==> Fits(payload, w, writeStamp, clock, k)
  {
    LengthInWords(length);
    AdmittedFitsExactly(length, Late(writeStamp, clock, k), payload);
  }

  lemma TailNotOne(s: State)
    requires Ok(s)
    ensures s.pages[TailPage(s)].write != 1
  {
    TailSound(s);
  }

  /// One turn of the search

  // What the ring pages hold.
  ghost function Queued(s: State): seq<Record>
    requires Linked(s)
  {
    Concat(s.pages, Used(s))
  }

  // The commit page is at place `c`: the reader has `unread` events left on its page, the commit page holds `held`
  // events and the pages behind it none, and the tail can still move `room` times.
  ghost predicate Search(s: State, c: int, overwrite: bool, unread: nat, held: nat, room: nat) {
    && Lags(s, c) && Ok(Settle(s, c)) && Bare(s, c, held)
    && |Unread(Settle(s, c))| == unread && Room(s, c, overwrite) == room
  }

  // What a reader will find is the same in both states, but for the events `gone`, the first in the ring.
  ghost predicate Loses(u: State, v: State, gone: seq<Record>) {
    Ok(u) && Ok(v) && Unread(v) == Unread(u) && Queued(u) == gone + Queued(v)
  }

  lemma LosesNothing(u: State, v: State)
    requires Ok(u) && Ok(v) && Unread(v) == Unread(u) && Queued(v) == Queued(u)
    ensures Loses(u, v, [])
  {
  }

  lemma LosesMore(u: State, v: State, w: State, gone: seq<Record>, more: seq<Record>)
    requires Loses(u, v, gone) && Loses(v, w, more)
    ensures Loses(u, w, gone + more)
  {
    ConcatAssoc(gone, more, Queued(w));
  }

  lemma CloseLoses(s: State)
    requires Ok(s)
    ensures s.pages[TailPage(s)].write <= PAGE_WORDS
    ensures Loses(s, OnTail(s, Close(s.pages[TailPage(s)]), s.writeStamp), [])
  {
    CloseTailOk(s);
    var t := OnTail(s, Close(s.pages[TailPage(s)]), s.writeStamp);
    CloseQueued(s);
    LosesNothing(s, t);
  }

  lemma SearchCloses(s: State, c: int, overwrite: bool, unread: nat, held: nat, room: nat)
    requires Search(s, c, overwrite, unread, held, room)
    ensures s.pages[TailPage(s)].write <= PAGE_WORDS
    ensures Search(PadTail(s), c, overwrite, unread, held, room) && 0 < PadTail(s).pages[TailPage(s)].write
    ensures Loses(Settle(s, c), Settle(PadTail(s), c), [])
  {
    CloseLoses(Settle(s, c));
    CloseTailOk(Settle(s, c));
    SettlePad(s, c);
    BarePad(s, c, held);
  }

  lemma SearchMoves(s: State, c: int, overwrite: bool, unread: nat, held: nat, room: nat, now: nat)
    requires Search(s, c, overwrite, unread, held, room) && 0 < s.pages[TailPage(s)].write && s.tailAt < |s.ring| - 1
    ensures 0 < room && Search(Move(s, now), c, overwrite, unread, held, room - 1)
    ensures Move(s, now).pages[TailPage(Move(s, now))].write == 0 && c < Move(s, now).tailAt
    ensures Loses(Settle(s, c), Settle(Move(s, now), c), [])
  {
    var u := Settle(s, c);
    assert 0 < u.pages[TailPage(u)].commit;
    FreshFilled(u, now);
    NextPageEmpty(u, now);
    SettleMove(s, c, now);
    MoveTail(s, now);
    MoveTakesRoom(s, c, overwrite, now);
    BareMove(s, c, now, held);
    LosesNothing(u, NextPage(u, now));
  }

  lemma SearchWraps(s: State, c: int, unread: nat, held: nat, room: nat, now: nat) returns (gone: seq<Record>)
    requires Search(s, c, true, unread, held, room) && 0 < s.pages[TailPage(s)].write && s.tailAt == |s.ring| - 1 && 0 < c
    ensures 0 < room && Search(Move(s, now), c - 1, true, unread, held, room - 1)
    ensures Move(s, now).pages[TailPage(Move(s, now))].write == 0
    ensures Loses(Settle(s, c), Settle(Move(s, now), c - 1), gone) && |gone| == s.pages[s.ring[0]].entries
  {
    var u := Settle(s, c);
    assert 0 < u.pages[TailPage(u)].commit;
    NextPageWraps(u, now);
    NextPageEmpty(u, now);
    SettleMove(s, c, now);
    MoveTail(s, now);
    MoveTakesRoom(s, c, true, now);
    BareMove(s, c, now, held);
    gone := Records(u.pages[u.ring[0]]);
  }

  predicate CanMove(s: State, c: int, overwrite: bool) {
    s.tailAt < |s.ring| - 1 || (overwrite && 0 < c)
  }

  function Tried(s: State, c: int, overwrite: bool, now: nat): State
    requires Linked(s) && s.pages[TailPage(s)].write <= PAGE_WORDS
  {
    if CanMove(s, c, overwrite) then Move(PadTail(s), now) else PadTail(s)
  }

  function TriedAt(s: State, c: int, overwrite: bool): int {
    if CanMove(s, c, overwrite) then Moved(s, c) else c
  }

  // How many events that overwrites.
  function Pushed(s: State, c: int, overwrite: bool): nat
    requires Linked(s)
  {
    if s.tailAt == |s.ring| - 1 && overwrite && 0 < c then s.pages[s.ring[0]].entries else 0
  }

  lemma SearchGoesOn(s: State, c: int, overwrite: bool, unread: nat, held: nat, room: nat, now: nat) returns (gone: seq<Record>)
    requires Search(s, c, overwrite, unread, held, room)
    ensures s.pages[TailPage(s)].write <= PAGE_WORDS && (CanMove(s, c, overwrite) <==> room > 0)
    ensures var t, d := Tried(s, c, overwrite, now), TriedAt(s, c, overwrite);
            && Search(t, d, overwrite, unread, held, if room > 0 then room - 1 else 0)
            && (room > 0 ==> t.pages[TailPage(t)].write == 0 && d < t.tailAt)
            && Loses(Settle(s, c), Settle(t, d), gone) && |gone| == Pushed(s, c, overwrite)
  {
    SearchCloses(s, c, overwrite, unread, held, room);
    var p := PadTail(s);
    gone := [];
    if s.tailAt < |s.ring| - 1 {
      SearchMoves(p, c, overwrite, unread, held, room, now);
      LosesMore(Settle(s, c), Settle(p, c), Settle(Move(p, now), c), [], []);
      assert [] + [] == gone;
    } else if overwrite && 0 < c {
      gone := SearchWraps(p, c, unread, held, room, now);
      LosesMore(Settle(s, c), Settle(p, c), Settle(Move(p, now), c - 1), [], gone);
      assert p.pages[s.ring[0]] == s.pages[s.ring[0]] && [] + gone == gone;
    }
  }

  /// The whole search

  // What the writer is looking for and where it began: the payload, the clock readings, the use of the tail page, the
  // write stamp, the mode, the place of the tail page, and the numbers of `Search`.
  datatype Quest = Quest(payload: seq<Word>, clock: seq<nat>, used: nat, stamp: nat, overwrite: bool, at: int,
                         unread: nat, held: nat, room: nat)

  predicate FitsAt(q: Quest, k: nat) {
    Fits(q.payload, q.used, q.stamp, q.clock, k)
  }

  // None of the first `k` attempts fits.
  ghost predicate NoneFits(q: Quest, k: nat) {
    forall m: nat | m < k :: !FitsAt(q, m)
  }

  lemma NoneFitsNext(q: Quest, k: nat)
    requires NoneFits(q, k) && !FitsAt(q, k)
    ensures NoneFits(q, k + 1)
  {
  }

  // Where a search has come to: the buffer, the place of the commit page in it, the number of events overwritten.
  datatype Reached = Reached(s: State, c: int, lost: nat)

  // The state once the commit has caught up.
  ghost function AfterCommit(r: Reached): State
    requires Linked(r.s)
  {
    Settle(r.s, r.c)
  }

  // The tail can still move `room` times.
  ghost predicate Sought(q: Quest, r: Reached, room: nat) {
    match r
    case Reached(s, c, _) =>
      && Search(s, c, q.overwrite, q.unread, q.held, room)
      && (0 <= c <==> 0 <= q.at) && (q.overwrite || c == q.at)
  }

  // Attempt `k` is due.
  ghost predicate Seeking(q: Quest, r: Reached, k: nat) {
    match r
    case Reached(s, c, _) =>
      && k <= q.room && Sought(q, r, q.room - k)
      && s.writeStamp == q.stamp && s.pages[TailPage(s)].write == (if k == 0 then q.used else 0) && (c == s.tailAt <==> k == 0)
  }

  ghost function QuestFor(payload: seq<Word>, clock: seq<nat>, overwrite: bool, s: State): Quest
    requires Ok(s)
  {
    var p := s.pages[TailPage(s)];
    Quest(payload, clock, p.write, s.writeStamp, overwrite, s.tailAt, |Unread(s)|, p.entries, Room(s, s.tailAt, overwrite))
  }

  lemma QuestBegins(payload: seq<Word>, clock: seq<nat>, overwrite: bool, s: State)
    requires Ok(s) && Quiet(s)
    ensures var q, r := QuestFor(payload, clock, overwrite, s), Reached(s, s.tailAt, 0); Seeking(q, r, 0) && Costs(q, s, r, [])
  {
    QuietIsSettled(s);
    LosesNothing(s, s);
  }

  ghost predicate CanTry(r: Reached) {
    Linked(r.s) && -1 <= r.c <= r.s.tailAt && r.s.pages[TailPage(r.s)].write <= PAGE_WORDS
  }

  // Attempt `k` finds no room and tries to make some.
  ghost function Turn(q: Quest, r: Reached, k: nat): Reached
    requires CanTry(r)
  {
    Reached(Tried(r.s, r.c, q.overwrite, Reading(q.clock, 2 * k + 1)), TriedAt(r.s, r.c, q.overwrite), r.lost + Pushed(r.s, r.c, q.overwrite))
  }

  ghost predicate TurnOf(q: Quest, r: Reached, k: nat, r': Reached) {
    CanTry(r) && r' == Turn(q, r, k)
  }

  // What the writer needs to know to make an attempt.
  lemma QuestLooks(q: Quest, r: Reached, k: nat)
    requires Seeking(q, r, k)
    ensures CanTry(r) && (CanMove(r.s, r.c, q.overwrite) <==> k < q.room)
    ensures FitsAt(q, k) <==> EndOf(r.s.pages[TailPage(r.s)].write, NeedsExtend(r.s.writeStamp, Reading(q.clock, 2 * k)), q.payload) <= PAGE_WORDS
  {
    var _ := SearchGoesOn(r.s, r.c, q.overwrite, q.unread, q.held, q.room - k, 0);
  }

  lemma QuestGoesOn(q: Quest, r: Reached, k: nat, r': Reached) returns (gone: seq<Record>)
    requires Seeking(q, r, k) && TurnOf(q, r, k, r')
    ensures k < q.room ==> Seeking(q, r', k + 1)
    ensures k == q.room ==> Sought(q, r', 0)
    ensures Linked(r'.s) && Loses(AfterCommit(r), AfterCommit(r'), gone) && r'.lost == r.lost + |gone| && (|gone| == 0 || q.overwrite)
  {
    gone := SearchGoesOn(r.s, r.c, q.overwrite, q.unread, q.held, q.room - k, Reading(q.clock, 2 * k + 1));
  }

  // So far the search, which began in state `u`, has cost the events `gone`.
  ghost predicate Costs(q: Quest, u: State, r: Reached, gone: seq<Record>) {
    match r
    case Reached(s, _, lost) => Linked(s) && Loses(u, AfterCommit(r), gone) && lost == |gone| && (|gone| == 0 || q.overwrite)
  }

  lemma TurnCosts(q: Quest, u: State, r: Reached, k: nat, r': Reached, before: seq<Record>) returns (gone: seq<Record>)
    requires Seeking(q, r, k) && TurnOf(q, r, k, r') && Costs(q, u, r, before)
    ensures Costs(q, u, r', gone)
    ensures k < q.room ==> Seeking(q, r', k + 1)
    ensures k == q.room ==> Sought(q, r', 0)
  {
    var more := QuestGoesOn(q, r, k, r');
    LosesMore(u, AfterCommit(r), AfterCommit(r'), before, more);
    gone := before + more;
  }

  /** A writer that goes all the way round to a commit page in the ring leaves the events on the reader's page and
      those on the commit page, and no others. */
  lemma StopLeaves(q: Quest, r: Reached)
    requires Sought(q, r, 0) && q.overwrite && 0 <= q.at
    ensures |Readable(AfterCommit(r))| == q.unread + q.held
  {
    BareReadable(r.s, r.c, q.held);
  }

  /// What it leaves

  // After `k` attempts that found no room, and one more if it was stopped, a search from state `start` has come to `r`.
  ghost predicate Ended(q: Quest, start: State, r: Reached, k: nat, stopped: bool, gone: seq<Record>) {
    match r
    case Reached(s, c, _) =>
      && Lags(s, c) && Costs(q, start, r, gone)
      && if stopped then
           && (c <= 0 <==> q.overwrite || q.at <= 0)
           && (q.overwrite && 0 <= q.at ==> |Readable(AfterCommit(r))| == q.unread + q.held)
         else
           && s.writeStamp == q.stamp && s.pages[TailPage(s)].write == (if k == 0 then q.used else 0)
           && (c < s.tailAt ==> 0 < k)
  }

  lemma QuestEnds(q: Quest, u: State, r: Reached, k: nat, stopped: bool, gone: seq<Record>)
    requires Costs(q, u, r, gone) && if stopped then Sought(q, r, 0) else Seeking(q, r, k)
    ensures Ended(q, u, r, k, stopped, gone)
  {
    if stopped && q.overwrite && 0 <= q.at {
      StopLeaves(q, r);
    }
  }
}
