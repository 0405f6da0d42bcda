/**
 * The event queue of an evdev client: a circular buffer that shows whole packets only, replaces what it
 * cannot hold by a single SYN_DROPPED, and holds a wake lock while there is something to read.
 */
module Evdev {
  import opened Arithmetic

  const EV_SYN: nat := 0
  const SYN_REPORT: nat := 0
  const SYN_DROPPED: nat := 3
  const EVDEV_MIN_BUFFER_SIZE: nat := 64
  const EVDEV_BUF_PACKETS: nat := 8

  datatype Event = Event(time: int, kind: nat, code: nat, value: int)

  predicate IsReport(e: Event) {
    e.kind == EV_SYN && e.code == SYN_REPORT
  }

  function Dropped(time: int): Event {
    Event(time, EV_SYN, SYN_DROPPED, 0)
  }

  /// The stream as the client sees it

  // What a fetched or queued event stands for: one input, or the lost inputs from `lo` up to `hi`.
  datatype Item = One(i: nat) | Lost(lo: nat, hi: nat)

  function Lo(x: Item): nat {
    if x.One? then x.i else x.lo
  }

  function Hi(x: Item): nat {
    if x.One? then x.i + 1 else x.hi
  }

  // The items follow each other without gap or overlap and cover the first `n` inputs.
  predicate ItemOk(trace: seq<Item>, j: nat)
    requires j < |trace|
  {
    Lo(trace[j]) < Hi(trace[j]) && Lo(trace[j]) == End(trace[..j])
  }

  function End(trace: seq<Item>): nat {
    if trace == [] then 0 else Hi(trace[|trace| - 1])
  }

  predicate Tiles(trace: seq<Item>, n: nat) {
    End(trace) == n && forall j: nat | j < |trace| :: ItemOk(trace, j)
  }

  lemma TilesOne(trace: seq<Item>, n: nat)
    requires Tiles(trace, n)
    ensures Tiles(trace + [One(n)], n + 1)
  {
    var t := trace + [One(n)];
    forall j: nat | j < |t| ensures ItemOk(t, j) {
      assert t[..j] == trace[..j];
      if j < |trace| {
        assert ItemOk(trace, j);
      } else {
        assert trace[..j] == trace;
      }
    }
  }

  // Everything from item `k` on is lost.
  function Drop(trace: seq<Item>, k: nat, n: nat): seq<Item>
    requires k < |trace|
  {
    trace[..k] + [Lost(Lo(trace[k]), n)]
  }

  lemma TilesDrop(trace: seq<Item>, k: nat, n: nat)
    requires Tiles(trace, n) && k < |trace|
    ensures Tiles(Drop(trace, k, n), n) && n - Lo(trace[k]) >= |trace| - k
  {
    var t := Drop(trace, k, n);
    Width(trace, k, n);
    forall j: nat | j < |t| ensures ItemOk(t, j) {
      assert ItemOk(trace, j);
      assert t[..j] == trace[..j];
    }
  }

  lemma {:induction false} Width(trace: seq<Item>, k: nat, n: nat)
    requires Tiles(trace, n) && k < |trace|
    ensures n - Lo(trace[k]) >= |trace| - k
    decreases |trace| - k
  {
    assert ItemOk(trace, k);
    if k + 1 < |trace| {
      assert ItemOk(trace, k + 1);
      assert trace[..k + 1][k] == trace[k];
      Width(trace, k + 1, n);
    }
  }

  // The event shows the item: the input itself, or one SYN_DROPPED for at least `least` inputs.
  predicate Shows(x: Item, e: Event, inputs: seq<Event>, least: nat) {
    match x
    case One(i) => i < |inputs| && e == inputs[i]
    case Lost(lo, hi) => hi <= |inputs| && hi - lo >= least && e.kind == EV_SYN && e.code == SYN_DROPPED && e.value == 0
  }

  predicate AllShow(trace: seq<Item>, events: seq<Event>, inputs: seq<Event>, least: nat) {
    |trace| == |events| && forall j: nat | j < |trace| :: Shows(trace[j], events[j], inputs, least)
  }

  // The fetched and the queued events, in this order, stand for the whole input.
  ghost predicate Carries(trace: seq<Item>, fetched: seq<Event>, queue: seq<Event>, inputs: seq<Event>, least: nat) {
    && Tiles(trace, |inputs|) && |fetched| <= |trace|
    && AllShow(trace[..|fetched|], fetched, inputs, least)
    && AllShow(trace[|fetched|..], queue, inputs, least)
  }

  lemma ShowsMore(trace: seq<Item>, events: seq<Event>, inputs: seq<Event>, least: nat, e: Event)
    requires AllShow(trace, events, inputs, least)
    ensures AllShow(trace, events, inputs + [e], least)
  {
    forall j: nat | j < |trace| ensures Shows(trace[j], events[j], inputs + [e], least) {
      assert Shows(trace[j], events[j], inputs, least);
    }
  }

  /** Fetching moves the oldest queued event to the fetched ones. */
  lemma CarriesPop(trace: seq<Item>, fetched: seq<Event>, queue: seq<Event>, inputs: seq<Event>, least: nat)
    requires Carries(trace, fetched, queue, inputs, least) && queue != []
    ensures Carries(trace, fetched + [queue[0]], queue[1..], inputs, least)
  {
    var k := |fetched|;
    var before, behind := trace[..k], trace[k..];
    assert Shows(behind[0], queue[0], inputs, least);
    assert trace[..k + 1] == before + [trace[k]];
    assert trace[k + 1..] == behind[1..];
    forall j: nat | j < |behind[1..]| ensures Shows(behind[1..][j], queue[1..][j], inputs, least) {
      assert Shows(behind[j + 1], queue[j + 1], inputs, least);
    }
  }

  /** Passing an event queues it behind the others. */
  lemma CarriesPush(trace: seq<Item>, fetched: seq<Event>, queue: seq<Event>, inputs: seq<Event>, least: nat, e: Event)
    requires Carries(trace, fetched, queue, inputs, least)
    ensures Carries(trace + [One(|inputs|)], fetched, queue + [e], inputs + [e], least)
  {
    var k, t := |fetched|, trace + [One(|inputs|)];
    TilesOne(trace, |inputs|);
    ShowsMore(trace[..k], fetched, inputs, least, e);
    ShowsMore(trace[k..], queue, inputs, least, e);
    assert t[..k] == trace[..k];
    assert t[k..] == trace[k..] + [One(|inputs|)];
  }

  /** Overflowing replaces the whole queue by one SYN_DROPPED, which stands for all of it. */
  lemma CarriesDrop(trace: seq<Item>, fetched: seq<Event>, queue: seq<Event>, inputs: seq<Event>, least: nat, time: int)
    requires Carries(trace, fetched, queue, inputs, least) && queue != [] && |queue| >= least
    ensures Carries(Drop(trace, |fetched|, |inputs|), fetched, [Dropped(time)], inputs, least)
  {
    var k := |fetched|;
    TilesDrop(trace, k, |inputs|);
    var t := Drop(trace, k, |inputs|);
    assert t[..k] == trace[..k];
    assert t[k..] == [Lost(Lo(trace[k]), |inputs|)];
  }

  /// The circular buffer

  // The place `j` behind `i`.
  function Wrap(i: nat, j: nat, n: nat): nat {
    if i + j < n then i + j else i + j - n
  }

  function Length(tail: nat, head: nat, n: nat): nat
    requires tail < n && head < n
  {
    if tail <= head then head - tail else head + n - tail
  }

  ghost function Ring(b: seq<Event>, tail: nat, len: nat): seq<Event>
    requires tail < |b| && len <= |b|
  {
    seq(len, j requires 0 <= j < len => b[Wrap(tail, j, |b|)])
  }

  // Writing behind the last event appends it.
  lemma RingPush(b: seq<Event>, tail: nat, len: nat, e: Event)
    requires tail < |b| && len < |b|
    ensures Ring(b[Wrap(tail, len, |b|) := e], tail, len + 1) == Ring(b, tail, len) + [e]
  {
  }

  lemma RingPop(b: seq<Event>, tail: nat, len: nat)
    requires tail < |b| && 0 < len <= |b|
    ensures Ring(b, Wrap(tail, 1, |b|), len - 1) == Ring(b, tail, len)[1..]
  {
  }

  // The buffer and its three indices.
  datatype Buf = Buf(b: seq<Event>, head: nat, tail: nat, packet: nat)

  predicate Sized(r: Buf) {
    EVDEV_MIN_BUFFER_SIZE <= |r.b| && r.head < |r.b| && r.tail < |r.b| && r.packet < |r.b|
  }

  ghost function Queue(r: Buf): seq<Event>
    requires Sized(r)
  {
    Ring(r.b, r.tail, Length(r.tail, r.head, |r.b|))
  }

  // How many queued events may be read.
  function Visible(r: Buf): nat
    requires Sized(r)
  {
    Length(r.tail, r.packet, |r.b|)
  }

  function Store(r: Buf, e: Event): Buf
    requires Sized(r)
  {
    var b, h := r.b[r.head := e], Wrap(r.head, 1, |r.b|);
    if h == r.tail then
      var t := Wrap(h, |r.b| - 2, |r.b|);
      Buf(b[t := Dropped(e.time)], h, t, t)
    else r.(b := b, head := h)
  }

  function Pass(r: Buf, e: Event): Buf
    requires Sized(r)
  {
    var r' := Store(r, e);
    if IsReport(e) then r'.(packet := r'.head) else r'
  }

  function Fetch(r: Buf): Buf
    requires Sized(r)
  {
    r.(tail := Wrap(r.tail, 1, |r.b|))
  }

  // Storing one more event would fill the buffer.
  predicate Full(r: Buf)
    requires Sized(r)
  {
    Length(r.tail, r.head, |r.b|) == |r.b| - 1
  }

  lemma StoreKeeps(r: Buf, e: Event)
    requires Sized(r) && !Full(r)
    ensures Sized(Store(r, e)) && Queue(Store(r, e)) == Queue(r) + [e] && Visible(Store(r, e)) == Visible(r)
  {
    RingPush(r.b, r.tail, Length(r.tail, r.head, |r.b|), e);
  }

  lemma StoreCuts(r: Buf, e: Event)
    requires Sized(r) && Full(r)
    ensures Sized(Store(r, e)) && Queue(Store(r, e)) == [Dropped(e.time), e] && Visible(Store(r, e)) == 0
  {
    var r' := Store(r, e);
    assert Length(r'.tail, r'.head, |r'.b|) == 2;
    assert Queue(r')[0] == r'.b[r'.tail] && Queue(r')[1] == r'.b[Wrap(r'.tail, 1, |r'.b|)];
  }

  /** What passing an event does to the queue: nothing is lost unless the buffer is full, and then everything
      unread is, for one SYN_DROPPED.  A SYN_REPORT makes all that is queued readable. */
  lemma PassQueue(r: Buf, e: Event)
    requires Sized(r) && Visible(r) <= |Queue(r)|
    ensures Sized(Pass(r, e)) && |Pass(r, e).b| == |r.b| && (Full(r) <==> |Queue(r)| == |r.b| - 1)
    ensures Queue(Pass(r, e)) == if Full(r) then [Dropped(e.time), e] else Queue(r) + [e]
    ensures Visible(Pass(r, e)) == if IsReport(e) then |Queue(Pass(r, e))| else if Full(r) then 0 else Visible(r)
  {
    if Full(r) {
      StoreCuts(r, e);
    } else {
      StoreKeeps(r, e);
    }
  }

  lemma FetchQueue(r: Buf)
    requires Sized(r) && 0 < Visible(r) <= |Queue(r)|
    ensures Sized(Fetch(r)) && r.b[r.tail] == Queue(r)[0]
    ensures Queue(Fetch(r)) == Queue(r)[1..] && Visible(Fetch(r)) == Visible(r) - 1
  {
    RingPop(r.b, r.tail, Length(r.tail, r.head, |r.b|));
  }

  // All events passed to a client, all events it has fetched, and what the latter and the queue stand for.
  datatype History = History(inputs: seq<Event>, fetched: seq<Event>, trace: seq<Item>)

  ghost predicate Ok(r: Buf, y: History) {
    && Sized(r)
    && Carries(y.trace, y.fetched, Queue(r), y.inputs, |r.b| - 1)
    && EndsInReport(Queue(r), Visible(r))
  }

  function PassHistory(y: History, e: Event, cut: bool): History {
    var t := if cut && |y.fetched| < |y.trace| then Drop(y.trace, |y.fetched|, |y.inputs|) else y.trace;
    History(y.inputs + [e], y.fetched, t + [One(|y.inputs|)])
  }

  lemma PassCarries(y: History, queue: seq<Event>, least: nat, e: Event, cut: bool)
    requires Carries(y.trace, y.fetched, queue, y.inputs, least) && (cut ==> queue != [] && |queue| >= least)
    ensures cut ==> |y.fetched| < |y.trace|
    ensures var y' := PassHistory(y, e, cut);
            Carries(y'.trace, y'.fetched, if cut then [Dropped(e.time), e] else queue + [e], y'.inputs, least)
  {
    if cut {
      CarriesDrop(y.trace, y.fetched, queue, y.inputs, least, e.time);
      CarriesPush(Drop(y.trace, |y.fetched|, |y.inputs|), y.fetched, [Dropped(e.time)], y.inputs, least, e);
      assert [Dropped(e.time)] + [e] == [Dropped(e.time), e];
    } else {
      CarriesPush(y.trace, y.fetched, queue, y.inputs, least, e);
    }
  }

  // What may be read ends with a report.
  ghost predicate EndsInReport(queue: seq<Event>, visible: nat) {
    visible <= |queue| && (visible > 0 ==> IsReport(queue[visible - 1]))
  }

  lemma PassReport(r: Buf, e: Event)
    requires Sized(r) && EndsInReport(Queue(r), Visible(r))
    ensures Sized(Pass(r, e)) && EndsInReport(Queue(Pass(r, e)), Visible(Pass(r, e)))
  {
    PassQueue(r, e);
  }

  lemma PassOk(r: Buf, y: History, e: Event)
    requires Ok(r, y)
    ensures Ok(Pass(r, e), PassHistory(y, e, Full(r)))
  {
    PassQueue(r, e);
    PassCarriesTo(y, Queue(r), Queue(Pass(r, e)), |r.b| - 1, e, Full(r));
    PassReport(r, e);
  }

  lemma PassCarriesTo(y: History, queue: seq<Event>, queue': seq<Event>, least: nat, e: Event, cut: bool)
    requires Carries(y.trace, y.fetched, queue, y.inputs, least) && least > 0 && (cut <==> |queue| == least)
    requires queue' == if cut then [Dropped(e.time), e] else queue + [e]
    ensures var y' := PassHistory(y, e, cut);
            Carries(y'.trace, y'.fetched, queue', y'.inputs, least)
  {
    PassCarries(y, queue, least, e, cut);
  }

  lemma FetchOk(r: Buf, y: History)
    requires Ok(r, y) && Visible(r) > 0
    ensures Ok(Fetch(r), y.(fetched := y.fetched + [r.b[r.tail]]))
  {
    FetchQueue(r);
    CarriesPop(y.trace, y.fetched, Queue(r), y.inputs, |r.b| - 1);
  }

  /// Whole runs

  datatype Op = PassOp(e: Event) | FetchOp

  datatype Both = Both(r: Buf, y: History)

  function Do(s: Both, op: Op): Both {
    if !Sized(s.r) then s
    else
      match op
      case PassOp(e) => Both(Pass(s.r, e), PassHistory(s.y, e, Full(s.r)))
      case FetchOp => if Visible(s.r) > 0 then Both(Fetch(s.r), s.y.(fetched := s.y.fetched + [s.r.b[s.r.tail]])) else s
  }

  // The state after a run of the device passing events and the client fetching them.
  function Run(n: nat, ops: seq<Op>): Both
    decreases |ops|
  {
    if ops == [] then Both(Buf(seq(n, _ => Event(0, 0, 0, 0)), 0, 0, 0), History([], [], []))
    else Do(Run(n, ops[..|ops| - 1]), ops[|ops| - 1])
  }

  function Passed(ops: seq<Op>): seq<Event> {
    if ops == [] then []
    else Passed(ops[..|ops| - 1]) + (match ops[|ops| - 1] case PassOp(e) => [e] case FetchOp => [])
  }

  lemma DoOk(s: Both, op: Op)
    requires Ok(s.r, s.y)
    ensures Ok(Do(s, op).r, Do(s, op).y)
  {
    match op
    case PassOp(e) => PassOk(s.r, s.y, e);
    case FetchOp => if Visible(s.r) > 0 { FetchOk(s.r, s.y); }
  }

  lemma DoPasses(s: Both, op: Op)
    requires Sized(s.r)
    ensures |Do(s, op).r.b| == |s.r.b|
    ensures Do(s, op).y.inputs == s.y.inputs + (match op case PassOp(e) => [e] case FetchOp => [])
  {
  }

  lemma {:induction false} RunOk(n: nat, ops: seq<Op>)
    requires EVDEV_MIN_BUFFER_SIZE <= n
    ensures Ok(Run(n, ops).r, Run(n, ops).y) && |Run(n, ops).r.b| == n && Run(n, ops).y.inputs == Passed(ops)
    decreases |ops|
  {
    if ops != [] {
      RunOk(n, ops[..|ops| - 1]);
      DoOk(Run(n, ops[..|ops| - 1]), ops[|ops| - 1]);
      DoPasses(Run(n, ops[..|ops| - 1]), ops[|ops| - 1]);
    }
  }

  /** Over every run, what was fetched and what is still queued stand for exactly the events passed: each one
      itself, or as part of a stretch of at least n - 1 replaced by one SYN_DROPPED. */
  lemma RunCarries(n: nat, ops: seq<Op>)
    requires EVDEV_MIN_BUFFER_SIZE <= n
    ensures var s := Run(n, ops);
            && Sized(s.r) && Carries(s.y.trace, s.y.fetched, Queue(s.r), Passed(ops), n - 1)
            && EndsInReport(Queue(s.r), Visible(s.r))
  {
    RunOk(n, ops);
  }

  /// Adjacent losses

  // No two lost stretches touch, so each maximal one is shown by a single SYN_DROPPED.
  predicate Whole(trace: seq<Item>) {
    forall j | 0 < j < |trace| :: !(trace[j - 1].Lost? && trace[j].Lost?)
  }

  // A lost stretch is at most the first thing in the queue.
  predicate LostInFront(y: History) {
    |y.fetched| <= |y.trace| && forall j | |y.fetched| < j < |y.trace| :: y.trace[j].One?
  }

  predicate IsDropped(e: Event) {
    e.kind == EV_SYN && e.code == SYN_DROPPED
  }

  // The client has fetched a SYN_DROPPED and nothing since.
  predicate JustTold(y: History) {
    y.fetched != [] && IsDropped(y.fetched[|y.fetched| - 1])
  }

  // The next event will overflow the buffer of such a client.
  predicate Resplits(s: Both) {
    Sized(s.r) && Full(s.r) && JustTold(s.y)
  }

  lemma PassWhole(y: History, e: Event, cut: bool)
    requires LostInFront(y) && (cut ==> |y.fetched| < |y.trace|)
    ensures LostInFront(PassHistory(y, e, cut))
    ensures Whole(PassHistory(y, e, cut).trace) <==>
            Whole(y.trace) && !(cut && |y.fetched| > 0 && y.trace[|y.fetched| - 1].Lost?)
  {
    var k, t := |y.fetched|, PassHistory(y, e, cut).trace;
    if cut {
      assert t[k].Lost? && t[k + 1].One?;
    }
    forall j | 0 < j < |t|
      ensures (t[j - 1].Lost? && t[j].Lost?) <==>
              j <= k && ((j < |y.trace| && y.trace[j - 1].Lost? && y.trace[j].Lost?) || (cut && j == k && y.trace[j - 1].Lost?))
    {
      assert j < k ==> t[j] == y.trace[j];
      assert j - 1 < k ==> t[j - 1] == y.trace[j - 1];
    }
  }

  lemma FetchWhole(r: Buf, y: History)
    requires Ok(r, y) && LostInFront(y) && Visible(r) > 0
    ensures LostInFront(y.(fetched := y.fetched + [r.b[r.tail]]))
  {
    FetchOk(r, y);
  }

  // The last event fetched is a SYN_DROPPED exactly when it stands for a lost stretch.
  lemma ToldIsLost(r: Buf, y: History)
    requires Ok(r, y) && forall e | e in y.inputs :: !IsDropped(e)
    ensures |y.fetched| <= |y.trace| && (JustTold(y) <==> |y.fetched| > 0 && y.trace[|y.fetched| - 1].Lost?)
  {
    var k := |y.fetched|;
    if k > 0 {
      assert Shows(y.trace[..k][k - 1], y.fetched[k - 1], y.inputs, |r.b| - 1);
      if y.trace[k - 1].One? {
        assert y.inputs[y.trace[k - 1].i] in y.inputs;
      }
    }
  }

  lemma DoWhole(s: Both, op: Op)
    requires Ok(s.r, s.y) && LostInFront(s.y) && forall e | e in s.y.inputs :: !IsDropped(e)
    ensures LostInFront(Do(s, op).y)
    ensures Whole(Do(s, op).y.trace) <==> Whole(s.y.trace) && !(op.PassOp? && Resplits(s))
  {
    match op
    case PassOp(e) =>
      ToldIsLost(s.r, s.y);
      PassQueue(s.r, e);
      PassWhole(s.y, e, Full(s.r));
    case FetchOp =>
      if Visible(s.r) > 0 {
        FetchWhole(s.r, s.y);
      }
  }

  // Step `i` of the run overflows the buffer of a client that has just fetched a SYN_DROPPED.
  predicate SplitsAt(n: nat, ops: seq<Op>, i: nat)
    requires i < |ops|
  {
    ops[i].PassOp? && Resplits(Run(n, ops[..i]))
  }

  lemma SplitsBefore(n: nat, ops: seq<Op>, i: nat)
    requires i + 1 < |ops|
    ensures SplitsAt(n, ops, i) <==> SplitsAt(n, ops[..|ops| - 1], i)
  {
    assert ops[..|ops| - 1][..i] == ops[..i];
  }

  /** In a run whose inputs carry no SYN_DROPPED of their own, each maximal lost stretch is shown by a single
      SYN_DROPPED exactly if the buffer never overflows right after the client fetched one. */
  lemma {:induction false} StretchesSplitExactly(n: nat, ops: seq<Op>)
    requires EVDEV_MIN_BUFFER_SIZE <= n && forall e | e in Passed(ops) :: !IsDropped(e)
    ensures LostInFront(Run(n, ops).y)
    ensures Whole(Run(n, ops).y.trace) <==> forall i: nat | i < |ops| :: !SplitsAt(n, ops, i)
    decreases |ops|
  {
    if ops != [] {
      var m := |ops| - 1;
      var before := ops[..m];
      StretchesSplitExactly(n, before);
      RunOk(n, before);
      DoWhole(Run(n, before), ops[m]);
      assert SplitsAt(n, ops, m) <==> ops[m].PassOp? && Resplits(Run(n, before));
      forall i: nat | i < m ensures SplitsAt(n, ops, i) <==> SplitsAt(n, before, i) {
        SplitsBefore(n, ops, i);
      }
    }
  }

  // What the counterexample below watches: the length of the queue, the events fetched, the stretches lost.
  datatype Look = Look(len: nat, got: nat, lost: seq<bool>)

  predicate Looks(n: nat, s: Both, k: Look) {
    && Sized(s.r) && |s.r.b| == n
    && Length(s.r.tail, s.r.head, n) == k.len && |s.y.fetched| == k.got && |s.y.trace| == |k.lost|
    && forall j | 0 <= j < |k.lost| :: k.lost[j] == s.y.trace[j].Lost?
  }

  lemma PassLooks(n: nat, ops: seq<Op>, e: Event, k: Look)
    requires EVDEV_MIN_BUFFER_SIZE <= n && Looks(n, Run(n, ops), k) && (k.len == n - 1 ==> k.got < |k.lost|)
    ensures Looks(n, Run(n, ops + [PassOp(e)]),
                  if k.len == n - 1 then Look(2, k.got, k.lost[..k.got] + [true, false]) else Look(k.len + 1, k.got, k.lost + [false]))
    ensures IsReport(e) ==> Visible(Run(n, ops + [PassOp(e)]).r) == if k.len == n - 1 then 2 else k.len + 1
  {
    assert (ops + [PassOp(e)])[..|ops|] == ops;
  }

  lemma FetchLooks(n: nat, ops: seq<Op>, k: Look)
    requires EVDEV_MIN_BUFFER_SIZE <= n && Looks(n, Run(n, ops), k) && 0 < Visible(Run(n, ops).r) <= k.len
    ensures Looks(n, Run(n, ops + [FetchOp]), Look(k.len - 1, k.got + 1, k.lost))
  {
    assert (ops + [FetchOp])[..|ops|] == ops;
  }

  function Repeat(ops: seq<Op>, m: nat, e: Event): seq<Op> {
    if m == 0 then ops else Repeat(ops, m - 1, e) + [PassOp(e)]
  }

  function Kept(m: nat): seq<bool> {
    if m == 0 then [] else Kept(m - 1) + [false]
  }

  // Filling the buffer loses nothing.
  lemma {:induction false} Fill(n: nat, ops: seq<Op>, m: nat, e: Event, k: Look)
    requires EVDEV_MIN_BUFFER_SIZE <= n && Looks(n, Run(n, ops), k) && k.len + m <= n - 1
    ensures Looks(n, Run(n, Repeat(ops, m, e)), Look(k.len + m, k.got, k.lost + Kept(m)))
  {
    if m > 0 {
      Fill(n, ops, m - 1, e, k);
      PassLooks(n, Repeat(ops, m - 1, e), e, Look(k.len + (m - 1), k.got, k.lost + Kept(m - 1)));
      assert k.lost + Kept(m - 1) + [false] == k.lost + Kept(m);
    } else {
      assert k.lost + [] == k.lost;
    }
  }

  lemma {:induction false} KeptLength(m: nat)
    ensures |Kept(m)| == m
  {
    if m > 0 {
      KeptLength(m - 1);
    }
  }

  const MOVE := Event(0, 1, 0, 0)
  const REPORT := Event(0, EV_SYN, SYN_REPORT, 0)

  // Up to the first SYN_DROPPED, which the client fetches.
  function FirstLoss(n: nat): seq<Op>
    requires EVDEV_MIN_BUFFER_SIZE <= n
  {
    Repeat([], n - 1, MOVE) + [PassOp(MOVE)] + [PassOp(REPORT)] + [FetchOp]
  }

  lemma FirstLossLooks(n: nat)
    requires EVDEV_MIN_BUFFER_SIZE <= n
    ensures Looks(n, Run(n, FirstLoss(n)), Look(2, 1, [true, false, false]))
  {
    var full := Repeat([], n - 1, MOVE);
    Fill(n, [], n - 1, MOVE, Look(0, 0, []));
    KeptLength(n - 1);
    PassLooks(n, full, MOVE, Look(n - 1, 0, [] + Kept(n - 1)));
    assert ([] + Kept(n - 1))[..0] + [true, false] == [true, false];
    PassLooks(n, full + [PassOp(MOVE)], REPORT, Look(2, 0, [true, false]));
    FetchLooks(n, full + [PassOp(MOVE)] + [PassOp(REPORT)], Look(3, 0, [true, false, false]));
  }

  lemma TwoLost(n: nat, s: Both, k: Look, j: nat)
    requires Looks(n, s, k) && 0 < j < |k.lost| && k.lost[j - 1] && k.lost[j]
    ensures !Whole(s.y.trace)
  {
    assert s.y.trace[j - 1].Lost? && s.y.trace[j].Lost?;
  }

  /** So with any buffer size some run shows one lost stretch by two SYN_DROPPED in a row. */
  lemma StretchCanSplit(n: nat)
    requires EVDEV_MIN_BUFFER_SIZE <= n
    ensures !Whole(Run(n, Repeat(FirstLoss(n), n - 3, MOVE) + [PassOp(MOVE)]).y.trace)
  {
    FirstLossLooks(n);
    Fill(n, FirstLoss(n), n - 3, MOVE, Look(2, 1, [true, false, false]));
    var ops, lost := Repeat(FirstLoss(n), n - 3, MOVE), [true, false, false] + Kept(n - 3);
    PassLooks(n, ops, MOVE, Look(n - 1, 1, lost));
    TwoLost(n, Run(n, ops + [PassOp(MOVE)]), Look(2, 1, lost[..1] + [true, false]), 1);
  }

  /** evdev_compute_buffer_size: a power of two that holds eight packets and at least 64 events. */
  method ComputeBufferSize(hint: nat) returns (size: nat)
    ensures size >= EVDEV_MIN_BUFFER_SIZE && size >= hint * EVDEV_BUF_PACKETS
    ensures exists k: nat :: size == Pow2(k)
    ensures size == 64 || size < 2 * (hint * EVDEV_BUF_PACKETS)
  {
    var n := if hint * EVDEV_BUF_PACKETS > EVDEV_MIN_BUFFER_SIZE then hint * EVDEV_BUF_PACKETS else EVDEV_MIN_BUFFER_SIZE;
    size := 1;
    ghost var k := 0;
    while size < n
      invariant size == Pow2(k) && (size in {1, 2, 4, 8, 16, 32, 64} || 64 < size < 2 * (hint * EVDEV_BUF_PACKETS))
      decreases n - size
    {
      size := size * 2;
      k := k + 1;
    }
  }

  class Client {
    const bufsize: nat
    const buffer: array<Event>
    var head: nat
    var tail: nat
    var packetHead: nat
    var useWakeLock: bool
    var held: bool

    ghost var history: History

    ghost function View(): Buf
      reads this, buffer
    {
      Buf(buffer[..], head, tail, packetHead)
    }

    // The queue carries the input; the wake lock, if in use, is held exactly while there is something to read.
    ghost predicate Valid()
      reads this, buffer
    {
      bufsize == buffer.Length && Ok(View(), history) && (useWakeLock ==> (held <==> packetHead != tail))
    }

    constructor (bufsize: nat)
      requires EVDEV_MIN_BUFFER_SIZE <= bufsize
      ensures Valid() && this.bufsize == bufsize && history == History([], [], []) && !useWakeLock && fresh(buffer)
    {
      this.bufsize := bufsize;
      buffer := new Event[bufsize](_ => Event(0, 0, 0, 0));
      head, tail, packetHead, useWakeLock, held := 0, 0, 0, false, false;
      history := History([], [], []);
    }

    /** What the client has fetched is the input, in order, with stretches of at least bufsize - 1 inputs each
        replaced by one SYN_DROPPED, and nothing else missing; what it may read next ends with a whole packet. */
    lemma FetchedIsTheInput()
      requires Valid()
      ensures Tiles(history.trace, |history.inputs|) && |history.fetched| <= |history.trace|
      ensures AllShow(history.trace[..|history.fetched|], history.fetched, history.inputs, bufsize - 1)
      ensures packetHead != tail ==> 0 < Visible(View()) <= |Queue(View())| && IsReport(Queue(View())[Visible(View()) - 1])
    {
    }

    /** evdev_fetch_next_event: the oldest event, if a whole packet is there. */
    method FetchNextEvent() returns (have: bool, e: Event)
      requires Valid()
      modifies `tail, `held, `history
      ensures Valid() && (have <==> old(Visible(View())) > 0)
      ensures if have then Queue(old(View())) != [] && e == Queue(old(View()))[0] && View() == Fetch(old(View()))
              else View() == old(View())
      ensures history == if have then old(history).(fetched := old(history.fetched) + [e]) else old(history)
    {
      e := buffer[tail];
      have := packetHead != tail;
      if have {
        FetchOk(View(), history);
        FetchQueue(View());
        history := history.(fetched := history.fetched + [e]);
        tail := Wrap(tail, 1, bufsize);
        if useWakeLock && packetHead == tail {
          held := false;
        }
      }
    }

    // evdev_pass_event on the buffer and the wake lock.
    method Push(e: Event)
      requires bufsize == buffer.Length && Sized(View()) && (useWakeLock ==> (held <==> packetHead != tail))
      modifies `head, `tail, `packetHead, `held, buffer
      ensures View() == Pass(old(View()), e) && (useWakeLock ==> (held <==> packetHead != tail))
    {
      buffer[head] := e;
      head := Wrap(head, 1, bufsize);
      if head == tail {
        tail := Wrap(head, bufsize - 2, bufsize);
        buffer[tail] := Dropped(e.time);
        packetHead := tail;
        if useWakeLock {
          held := false;
        }
      }
      if IsReport(e) {
        packetHead := head;
        if useWakeLock {
          held := true;
        }
      }
    }

    /** evdev_pass_event: every event passed is accounted for. */
    method PassEvent(e: Event)
      requires Valid()
      modifies this, buffer
      ensures Valid() && View() == Pass(old(View()), e) && useWakeLock == old(useWakeLock)
      ensures history.inputs == old(history.inputs) + [e] && history.fetched == old(history.fetched)
    {
      PassOk(View(), history, e);
      history := PassHistory(history, e, Full(View()));
      Push(e);
    }

    /** evdev_enable_suspend_block. */
    method EnableSuspendBlock()
      requires Valid()
      modifies `useWakeLock, `held
      ensures Valid() && useWakeLock && (held <==> Visible(View()) > 0)
    {
      if !useWakeLock {
        useWakeLock, held := true, false;
        if packetHead != tail {
          held := true;
        }
      }
    }

    /** evdev_disable_suspend_block. */
    method DisableSuspendBlock()
      requires Valid()
      modifies `useWakeLock, `held
      ensures Valid() && !useWakeLock && (old(useWakeLock) ==> !held)
    {
      if useWakeLock {
        useWakeLock, held := false, false;
      }
    }
  }
}
