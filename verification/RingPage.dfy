/**
 One page of the trace ring buffer as the 32-bit words of its data area: how events, time extends
 and padding are encoded, and how a reader walks over them.

 Positions on a page count words; lengths are in bytes, as in the interface of the buffer.  The
 event type codes are those of the kernel's ring_buffer.h, which the repository does not carry.
 Data is aligned to 4 bytes.
 */
module RingPage {
  import opened RingSizes

  const PAGE_WORDS := BUF_PAGE_SIZE / 4
  const RB_EVNT_HDR_SIZE := 4
  const RB_LEN_TIME_EXTEND := 8

  const RINGBUF_TYPE_DATA_TYPE_LEN_MAX := 28
  const RINGBUF_TYPE_PADDING := 29
  const RINGBUF_TYPE_TIME_EXTEND := 30
  const RB_MAX_SMALL_DATA := 4 * RINGBUF_TYPE_DATA_TYPE_LEN_MAX

  // Max payload is BUF_PAGE_SIZE - header (8 bytes).
  const BUF_MAX_DATA_SIZE := BUF_PAGE_SIZE - 8

  const TS_RANGE := 0x800_0000              // 1 << TS_SHIFT, with TS_SHIFT == 27
  const WORD_RANGE := 0x1_0000_0000

  type TypeBits = t: nat | t < 32
  type DeltaBits = t: nat | t < TS_RANGE

  // A 32-bit word, split where an event header splits it: 5 bits of type and length, 27 bits of
  // time delta.  Other words are read through `Value`.
  datatype Word = Word(typeLen: TypeBits, delta: DeltaBits)

  function Value(w: Word): (v: nat)
    ensures v < WORD_RANGE
  {
    w.typeLen + 32 * w.delta
  }

  function ToWord(v: nat): (w: Word)
    requires v < WORD_RANGE
    ensures Value(w) == v
  {
    Word(v % 32, v / 32)
  }

  type Data = d: seq<Word> | |d| == PAGE_WORDS witness seq(PAGE_WORDS, _ => Word(0, 0))

  // What a consumer gets: the time stamp of the event and its payload.
  datatype Record = Record(ts: nat, payload: seq<Word>)

  /// rb_calculate_event_length, and the payload words that such a reservation holds

  function CalculateEventLength(length: nat): nat {
    var l := if length == 0 then 1 else length;
    var l1 := if l > RB_MAX_SMALL_DATA then l + 4 else l;
    (l1 + RB_EVNT_HDR_SIZE + 3) / 4 * 4
  }

  function PayloadWords(length: nat): nat {
    ((if length == 0 then 1 else length) + 3) / 4
  }

  // Words of a data event with `n` payload words: header, length word if it needs one, payload.
  function EventSize(n: nat): nat {
    if n > RINGBUF_TYPE_DATA_TYPE_LEN_MAX then n + 2 else n + 1
  }

  /** The reserved length is a whole number of words and leaves exactly the payload area asked for. */
  lemma LengthInWords(length: nat)
    ensures CalculateEventLength(length) == 4 * EventSize(PayloadWords(length))
    ensures 4 * PayloadWords(length) - 3 <= (if length == 0 then 1 else length) <= 4 * PayloadWords(length)
  {
  }

  /// Reading events

  // Words taken by the event at `i`; rb_event_length for the types that are written.
  function EventWords(d: Data, i: nat): nat
    requires i + 1 < |d|
  {
    var t := d[i].typeLen;
    if t == RINGBUF_TYPE_TIME_EXTEND then RB_LEN_TIME_EXTEND / 4
    else if t == RINGBUF_TYPE_PADDING || t == 0 then (Value(d[i + 1]) + RB_EVNT_HDR_SIZE) / 4
    else t + 1
  }

  predicate IsData(d: Data, i: nat)
    requires i < |d|
  {
    d[i].typeLen <= RINGBUF_TYPE_DATA_TYPE_LEN_MAX
  }

  // A whole event lies at `i` and ends by `e`.  A time extend comes with its data event, and padding
  // fills the rest of the page.
  predicate EventOk(d: Data, i: nat, e: nat)
    requires e <= |d|
  {
    && i + 1 < e
    && 1 <= EventWords(d, i) <= e - i
    && (IsData(d, i) ==> (d[i].typeLen == 0 ==> 2 <= EventWords(d, i)))
    && (d[i].typeLen == RINGBUF_TYPE_TIME_EXTEND ==> i + 2 < e && IsData(d, i + 2))
    && (d[i].typeLen == RINGBUF_TYPE_PADDING ==> d[i].delta != 0 && i + EventWords(d, i) == e == |d|)
    && d[i].typeLen != 31
  }

  // Stepping from event to event leads from `i` exactly to `e`.
  predicate Tiled(d: Data, i: nat, e: nat)
    requires e <= |d|
    decreases e - i
  {
    i == e || (EventOk(d, i, e) && Tiled(d, i + EventWords(d, i), e))
  }

  // The payload of a data event (rb_event_data, ring_buffer_event_length).
  function Payload(d: Data, i: nat): seq<Word>
    requires i + 1 < |d| && i + EventWords(d, i) <= |d| && IsData(d, i)
    requires d[i].typeLen == 0 ==> 2 <= EventWords(d, i)
  {
    d[i + (if d[i].typeLen == 0 then 2 else 1)..i + EventWords(d, i)]
  }

  // What an event adds to the running time stamp (rb_update_read_stamp).
  function StampDelta(d: Data, i: nat): nat
    requires i + 1 < |d|
  {
    var t := d[i].typeLen;
    if t == RINGBUF_TYPE_PADDING then 0
    else if t == RINGBUF_TYPE_TIME_EXTEND then Value(d[i + 1]) * TS_RANGE + d[i].delta
    else d[i].delta
  }

  // The events of a page in a row: what each adds to the time stamp, whether it carries data, and where it is.
  datatype Events = Done | Then(delta: nat, data: bool, at: nat, rest: Events)

  function EventsOf(d: Data, i: nat, e: nat): Events
    requires e <= |d| && Tiled(d, i, e)
    decreases e - i
  {
    if i == e then Done
    else Then(StampDelta(d, i), IsData(d, i), i, EventsOf(d, i + EventWords(d, i), e))
  }

  // The payload of the event at `i`, if there is one.
  function PayloadAt(d: Data, i: nat): seq<Word> {
    if i + 1 < |d| && i + EventWords(d, i) <= |d| && IsData(d, i) && (d[i].typeLen == 0 ==> 2 <= EventWords(d, i)) then Payload(d, i)
    else []
  }

  function RecordsOf(d: Data, a: Events, stamp: nat): seq<Record> {
    match a
    case Done => []
    case Then(delta, data, at, rest) =>
      if data then [Record(stamp + delta, PayloadAt(d, at))] + RecordsOf(d, rest, stamp + delta)
      else RecordsOf(d, rest, stamp + delta)
  }

  function StampAfter(a: Events, stamp: nat): nat {
    match a
    case Done => stamp
    case Then(delta, _, _, rest) => StampAfter(rest, stamp + delta)
  }

  // The records between `i` and `e`, with `stamp` the running time stamp at `i`.
  function Walk(d: Data, i: nat, e: nat, stamp: nat): seq<Record>
    requires e <= |d| && Tiled(d, i, e)
  {
    RecordsOf(d, EventsOf(d, i, e), stamp)
  }

  // The running time stamp after walking from `i` to `e`.
  function EndStamp(d: Data, i: nat, e: nat, stamp: nat): nat
    requires e <= |d| && Tiled(d, i, e)
  {
    StampAfter(EventsOf(d, i, e), stamp)
  }

  /// Writing events

  // A time delta as its two bit-fields: 27 bits for an event header, and the rest, cut to a word.
  datatype Delta = Delta(low: DeltaBits, high: Word)

  function DeltaValue(p: Delta): nat {
    Value(p.high) * TS_RANGE + p.low
  }

  // Computes `delta & TS_MASK` and `delta >> TS_SHIFT`, the latter stored in 32 bits.
  method SplitDelta(delta: nat) returns (p: Delta)
    ensures p.low == delta % TS_RANGE
    ensures delta < TS_RANGE * WORD_RANGE <==> DeltaValue(p) == delta
  {
    var high := delta / TS_RANGE;
    if high < WORD_RANGE {
      p := Delta(delta % TS_RANGE, ToWord(high));
    } else {
      p := Delta(delta % TS_RANGE, ToWord(high % WORD_RANGE));
    }
  }

  // rb_add_time_stamp: the two words of a time extend; the first event of a page needs no delta.
  function AddTimeStamp(d: Data, i: nat, p: Delta): Data
    requires i + 1 < |d|
  {
    if i != 0 then d[i := Word(RINGBUF_TYPE_TIME_EXTEND, p.low)][i + 1 := p.high]
    else d[i := Word(RINGBUF_TYPE_TIME_EXTEND, 0)][i + 1 := Word(0, 0)]
  }

  // The header of a data event of `length` bytes.
  function DataHeader(d: Data, at: nat, length: nat, delta: DeltaBits): Data
    requires at + length / 4 <= |d| && 8 <= length
  {
    var rest := length - RB_EVNT_HDR_SIZE;
    if rest > RB_MAX_SMALL_DATA then d[at := Word(0, delta)][at + 1 := ToWord(rest)]
    else d[at := Word((rest + 3) / 4, delta)]
  }

  // rb_update_event: header words of a reservation of `length` bytes at `i`, time extend included.
  function UpdateEvent(d: Data, i: nat, length: nat, addStamp: bool, p: Delta): Data
    requires i + length / 4 <= |d| && 8 <= length && (addStamp ==> 16 <= length)
  {
    if addStamp then DataHeader(AddTimeStamp(d, i, p), i + 2, length - RB_LEN_TIME_EXTEND, 0)
    else DataHeader(d, i, length, p.low)
  }

  // The caller copies its payload to the place ring_buffer_event_data points at.
  function Fill(d: Data, at: nat, payload: seq<Word>): Data
    requires at + |payload| <= |d|
  {
    d[..at] + payload + d[at + |payload|..]
  }

  // The words that describe the event at `i` are on the page.
  predicate Described(d: Data, i: nat) {
    i + 1 < |d| && (d[i].typeLen == RINGBUF_TYPE_TIME_EXTEND ==> i + 3 < |d|)
  }

  function DataStart(d: Data, i: nat): nat
    requires Described(d, i)
  {
    var at := if d[i].typeLen == RINGBUF_TYPE_TIME_EXTEND then i + 2 else i;
    if d[at].typeLen != 0 then at + 1 else at + 2
  }

  // rb_reset_tail: what is left of a page when an event did not fit at `tail`.
  function PadPage(d: Data, tail: nat): Data
    requires tail <= |d|
  {
    if tail == |d| then d
    else if 4 * tail > BUF_PAGE_SIZE - RB_EVNT_MIN_SIZE then d[tail := Word(RINGBUF_TYPE_PADDING, 0)]
    else d[tail := Word(RINGBUF_TYPE_PADDING, 1)][tail + 1 := ToWord(BUF_PAGE_SIZE - 4 * tail - RB_EVNT_HDR_SIZE)]
  }

  function PaddedEnd(tail: nat): nat {
    if 4 * tail > BUF_PAGE_SIZE - RB_EVNT_MIN_SIZE then tail else PAGE_WORDS
  }

  /// Lemmas

  predicate AgreeAt(d: Data, d': Data, k: nat)
    requires k < |d|
  {
    d'[k] == d[k]
  }

  // The first `n` words are the same.
  predicate Agree(d: Data, d': Data, n: nat)
    requires n <= |d|
  {
    forall k | 0 <= k < n :: AgreeAt(d, d', k)
  }

  lemma PayloadStays(d: Data, d': Data, i: nat, e: nat)
    requires e <= |d| && Agree(d, d', e) && EventOk(d, i, e) && IsData(d, i)
    requires EventWords(d', i) == EventWords(d, i) && d'[i] == d[i]
    ensures Payload(d', i) == Payload(d, i)
  {
    var a, b := Payload(d, i), Payload(d', i);
    var at := i + (if d[i].typeLen == 0 then 2 else 1);
    forall k | 0 <= k < |a| ensures a[k] == b[k] {
      assert AgreeAt(d, d', at + k);
    }
  }

  // An event before the end of the page does not change when only later words do.
  lemma EventStays(d: Data, d': Data, i: nat, e: nat, e': nat)
    requires e <= e' <= |d| && e < |d| && Agree(d, d', e) && EventOk(d, i, e)
    ensures EventOk(d', i, e') && EventWords(d', i) == EventWords(d, i) && StampDelta(d', i) == StampDelta(d, i)
    ensures IsData(d', i) == IsData(d, i)
  {
    assert AgreeAt(d, d', i) && AgreeAt(d, d', i + 1) && (i + 2 < e ==> AgreeAt(d, d', i + 2));
  }

  lemma PayloadAtStays(d: Data, d': Data, i: nat, e: nat)
    requires e < |d| && Agree(d, d', e) && EventOk(d, i, e)
    ensures IsData(d, i) ==> PayloadAt(d', i) == PayloadAt(d, i)
  {
    EventStays(d, d', i, e, e);
    assert AgreeAt(d, d', i);
    if IsData(d, i) {
      PayloadStays(d, d', i, e);
    }
  }

  lemma {:induction false} TiledConcat(d: Data, d': Data, s: nat, i: nat, e: nat)
    requires i <= e <= |d| && i < |d| && Tiled(d, s, i) && Agree(d, d', i) && Tiled(d', i, e)
    ensures Tiled(d', s, e)
    decreases i - s
  {
    if s < i {
      EventStays(d, d', s, i, e);
      TiledConcat(d, d', s + EventWords(d, s), i, e);
    }
  }

  function Join(a: Events, b: Events): Events {
    match a
    case Done => b
    case Then(_, _, _, rest) => a.(rest := Join(rest, b))
  }

  // Both lists begin with the same event, with `rest` and `rest'` behind it.
  predicate SameFirst(a: Events, rest: Events, a': Events, rest': Events) {
    match a
    case Done => false
    case Then(delta, data, at, r) => r == rest && a' == Then(delta, data, at, rest')
  }

  lemma FirstEventStays(d: Data, d': Data, i: nat, e: nat, e': nat)
    requires i < e <= e' <= |d| && e < |d| && Agree(d, d', e) && Tiled(d, i, e) && Tiled(d', i, e')
    ensures EventWords(d', i) == EventWords(d, i)
    ensures var next := i + EventWords(d, i);
            SameFirst(EventsOf(d, i, e), EventsOf(d, next, e), EventsOf(d', i, e'), EventsOf(d', next, e'))
  {
    EventStays(d, d', i, e, e');
  }

  lemma JoinFirst(a: Events, b: Events)
    requires a.Then?
    ensures Join(a, b) == a.(rest := Join(a.rest, b))
  {
  }

  lemma JoinsAll(a: Events, more: Events, b: Events, all: Events, rest: Events)
    requires SameFirst(a, more, all, rest) && rest == Join(more, b)
    ensures all == Join(a, b)
  {
    JoinFirst(a, b);
  }

  lemma {:induction false} EventsConcat(d: Data, d': Data, s: nat, i: nat, e: nat)
    requires i <= e <= |d| && i < |d| && Tiled(d, s, i) && Agree(d, d', i) && Tiled(d', i, e)
    ensures Tiled(d', s, e) && EventsOf(d', s, e) == Join(EventsOf(d, s, i), EventsOf(d', i, e))
    decreases i - s
  {
    TiledConcat(d, d', s, i, e);
    if s < i {
      var next := s + EventWords(d, s);
      EventsConcat(d, d', next, i, e);
      FirstEventStays(d, d', s, i, e);
      JoinsAll(EventsOf(d, s, i), EventsOf(d, next, i), EventsOf(d', i, e), EventsOf(d', s, e), EventsOf(d', next, e));
    }
  }

  lemma RecordsFirst(d: Data, a: Events, stamp: nat)
    requires a.Then?
    ensures var now := stamp + a.delta;
            && StampAfter(a, stamp) == StampAfter(a.rest, now)
            && RecordsOf(d, a, stamp)
               == if a.data then [Record(now, PayloadAt(d, a.at))] + RecordsOf(d, a.rest, now) else RecordsOf(d, a.rest, now)
  {
  }

  lemma EventsFirst(d: Data, i: nat, e: nat)
    requires i < e <= |d| && Tiled(d, i, e)
    ensures EventOk(d, i, e) && Tiled(d, i + EventWords(d, i), e)
    ensures EventsOf(d, i, e) == Then(StampDelta(d, i), IsData(d, i), i, EventsOf(d, i + EventWords(d, i), e))
  {
  }

  // Walking over the first event.
  lemma WalkFirst(d: Data, i: nat, e: nat, stamp: nat)
    requires i < e <= |d| && Tiled(d, i, e)
    ensures EventOk(d, i, e) && Tiled(d, i + EventWords(d, i), e)
    ensures var next, now := i + EventWords(d, i), stamp + StampDelta(d, i);
            && EndStamp(d, i, e, stamp) == EndStamp(d, next, e, now)
            && Walk(d, i, e, stamp)
               == if IsData(d, i) then [Record(now, Payload(d, i))] + Walk(d, next, e, now) else Walk(d, next, e, now)
  {
    EventsFirst(d, i, e);
    RecordsFirst(d, EventsOf(d, i, e), stamp);
  }

  lemma {:induction false} RecordsJoin(d: Data, a: Events, b: Events, stamp: nat)
    ensures RecordsOf(d, Join(a, b), stamp) == RecordsOf(d, a, stamp) + RecordsOf(d, b, StampAfter(a, stamp))
    ensures StampAfter(Join(a, b), stamp) == StampAfter(b, StampAfter(a, stamp))
    decreases a
  {
    if a.Then? {
      var now := stamp + a.delta;
      RecordsJoin(d, a.rest, b, now);
      ConcatAssoc([Record(now, PayloadAt(d, a.at))], RecordsOf(d, a.rest, now), RecordsOf(d, b, StampAfter(a.rest, now)));
    }
  }

  lemma RestStays(d: Data, d': Data, a: Events, stamp: nat)
    requires a.Then? && RecordsOf(d', a.rest, stamp + a.delta) == RecordsOf(d, a.rest, stamp + a.delta)
    requires a.data ==> PayloadAt(d', a.at) == PayloadAt(d, a.at)
    ensures RecordsOf(d', a, stamp) == RecordsOf(d, a, stamp)
  {
  }

  // Records do not change when only later words do.
  lemma {:induction false} RecordsStay(d: Data, d': Data, s: nat, i: nat, stamp: nat)
    requires i < |d| && Tiled(d, s, i) && Agree(d, d', i)
    ensures RecordsOf(d', EventsOf(d, s, i), stamp) == RecordsOf(d, EventsOf(d, s, i), stamp)
    decreases i - s
  {
    if s < i {
      EventsFirst(d, s, i);
      PayloadAtStays(d, d', s, i);
      RecordsStay(d, d', s + EventWords(d, s), i, stamp + StampDelta(d, s));
      RestStays(d, d', EventsOf(d, s, i), stamp);
    }
  }

  /** Walking a page is walking its first part and then the rest. */
  lemma WalkConcat(d: Data, d': Data, s: nat, i: nat, e: nat, stamp: nat)
    requires i <= e <= |d| && i < |d| && Tiled(d, s, i) && Agree(d, d', i) && Tiled(d', i, e)
    ensures Tiled(d', s, e)
    ensures Walk(d', s, e, stamp) == Walk(d, s, i, stamp) + Walk(d', i, e, EndStamp(d, s, i, stamp))
    ensures EndStamp(d', s, e, stamp) == EndStamp(d', i, e, EndStamp(d, s, i, stamp))
  {
    EventsConcat(d, d', s, i, e);
    RecordsJoin(d', EventsOf(d, s, i), EventsOf(d', i, e), stamp);
    RecordsStay(d, d', s, i, stamp);
  }

  lemma ConcatAssoc(a: seq<Record>, b: seq<Record>, c: seq<Record>)
    ensures a + (b + c) == (a + b) + c
  {
  }

  // A reservation for `payload`, written by UpdateEvent and filled by its caller.
  function Append(d: Data, i: nat, addStamp: bool, p: Delta, payload: seq<Word>): Data
    requires payload != [] && EndOf(i, addStamp, payload) <= PAGE_WORDS
  {
    var d1 := UpdateEvent(d, i, 4 * (EndOf(i, addStamp, payload) - i), addStamp, p);
    Fill(d1, EndOf(i, addStamp, payload) - |payload|, payload)
  }

  function EndOf(i: nat, addStamp: bool, payload: seq<Word>): nat {
    i + (if addStamp then 2 else 0) + EventSize(|payload|)
  }

  // The time delta that survives the encoding.
  function Encoded(i: nat, addStamp: bool, p: Delta): nat {
    if !addStamp then p.low else if i == 0 then 0 else DeltaValue(p)
  }

  lemma DataEventAt(d: Data, at: nat, left: nat, payload: seq<Word>)
    requires left < TS_RANGE && payload != [] && at + EventSize(|payload|) <= PAGE_WORDS
    requires if |payload| > RINGBUF_TYPE_DATA_TYPE_LEN_MAX then d[at] == Word(0, left) && Value(d[at + 1]) == 4 * |payload| + 4
             else d[at] == Word(|payload|, left)
    requires d[at + EventSize(|payload|) - |payload|..at + EventSize(|payload|)] == payload
    ensures var e := at + EventSize(|payload|);
            EventOk(d, at, e) && EventWords(d, at) == e - at && IsData(d, at) && Payload(d, at) == payload && StampDelta(d, at) == left
  {
  }

  lemma ExtendShape(d: Data, i: nat, p: Delta)
    requires i + 1 < |d|
    ensures var d' := AddTimeStamp(d, i, p);
            && (forall k | 0 <= k < i :: d'[k] == d[k])
            && d'[i].typeLen == RINGBUF_TYPE_TIME_EXTEND
            && Value(d'[i + 1]) * TS_RANGE + d'[i].delta == Encoded(i, true, p)
  {
  }

  lemma HeaderShape(d: Data, at: nat, n: nat, delta: DeltaBits)
    requires 0 < n && at + EventSize(n) <= |d|
    ensures var d' := DataHeader(d, at, 4 * EventSize(n), delta);
            && (forall k | 0 <= k < at :: d'[k] == d[k])
            && (if n > RINGBUF_TYPE_DATA_TYPE_LEN_MAX then d'[at] == Word(0, delta) && Value(d'[at + 1]) == 4 * n + 4
                else d'[at] == Word(n, delta))
  {
  }

  // At `i` there is an event for `payload`, with `delta` in its time extend or else in its header.
  predicate OneEvent(d: Data, i: nat, addStamp: bool, delta: nat, payload: seq<Word>)
    requires EndOf(i, addStamp, payload) <= PAGE_WORDS
  {
    var at, e, left := (if addStamp then i + 2 else i), EndOf(i, addStamp, payload), (if addStamp then 0 else delta);
    && d[e - |payload|..e] == payload
    && (addStamp ==> d[i].typeLen == RINGBUF_TYPE_TIME_EXTEND && Value(d[i + 1]) * TS_RANGE + d[i].delta == delta)
    && left < TS_RANGE
    && (if |payload| > RINGBUF_TYPE_DATA_TYPE_LEN_MAX then d[at] == Word(0, left) && Value(d[at + 1]) == 4 * |payload| + 4
        else d[at] == Word(|payload|, left))
  }

  // The header of a data event at `at`, and its payload behind it.
  lemma FilledShape(d: Data, at: nat, delta: DeltaBits, payload: seq<Word>)
    requires payload != [] && at + EventSize(|payload|) <= PAGE_WORDS
    ensures var n, e := |payload|, at + EventSize(|payload|);
            var d' := Fill(DataHeader(d, at, 4 * EventSize(n), delta), e - n, payload);
            && Agree(d, d', at) && d'[e - n..e] == payload
            && (if n > RINGBUF_TYPE_DATA_TYPE_LEN_MAX then d'[at] == Word(0, delta) && Value(d'[at + 1]) == 4 * n + 4
                else d'[at] == Word(n, delta))
  {
    var n, e := |payload|, at + EventSize(|payload|);
    HeaderShape(d, at, n, delta);
    FillShape(DataHeader(d, at, 4 * EventSize(n), delta), e - n, payload);
  }

  lemma PlainShape(d: Data, i: nat, p: Delta, payload: seq<Word>)
    requires payload != [] && EndOf(i, false, payload) <= PAGE_WORDS
    ensures var d' := Append(d, i, false, p, payload); Agree(d, d', i) && OneEvent(d', i, false, Encoded(i, false, p), payload)
  {
    FilledShape(d, i, p.low, payload);
  }

  lemma ExtendedShape(d: Data, i: nat, p: Delta, payload: seq<Word>)
    requires payload != [] && EndOf(i, true, payload) <= PAGE_WORDS
    ensures var d' := Append(d, i, true, p, payload); Agree(d, d', i) && OneEvent(d', i, true, Encoded(i, true, p), payload)
  {
    var d0, d' := AddTimeStamp(d, i, p), Append(d, i, true, p, payload);
    ExtendShape(d, i, p);
    FilledShape(d0, i + 2, 0, payload);
    assert AgreeAt(d0, d', i) && AgreeAt(d0, d', i + 1);
    forall k | 0 <= k < i ensures AgreeAt(d, d', k) {
      assert AgreeAt(d0, d', k);
    }
  }

  lemma AppendShape(d: Data, i: nat, addStamp: bool, p: Delta, payload: seq<Word>)
    requires payload != [] && EndOf(i, addStamp, payload) <= PAGE_WORDS
    ensures var d' := Append(d, i, addStamp, p, payload); Agree(d, d', i) && OneEvent(d', i, addStamp, Encoded(i, addStamp, p), payload)
  {
    if addStamp {
      ExtendedShape(d, i, p, payload);
    } else {
      PlainShape(d, i, p, payload);
    }
  }

  lemma FillShape(d: Data, at: nat, payload: seq<Word>)
    requires at + |payload| <= |d|
    ensures Fill(d, at, payload)[at..at + |payload|] == payload
    ensures forall k | 0 <= k < at :: Fill(d, at, payload)[k] == d[k]
  {
  }

  lemma AppendIsOneRecord(d: Data, i: nat, addStamp: bool, p: Delta, payload: seq<Word>, x: nat)
    requires payload != [] && EndOf(i, addStamp, payload) <= PAGE_WORDS
    ensures var d', e, now := Append(d, i, addStamp, p, payload), EndOf(i, addStamp, payload), x + Encoded(i, addStamp, p);
            && Agree(d, d', i)
            && Tiled(d', i, e)
            && Walk(d', i, e, x) == [Record(now, payload)]
            && EndStamp(d', i, e, x) == now
  {
    var d' := Append(d, i, addStamp, p, payload);
    AppendShape(d, i, addStamp, p, payload);
    OneRecord(d', i, addStamp, Encoded(i, addStamp, p), payload, x);
  }

  lemma OneRecord(d: Data, i: nat, addStamp: bool, delta: nat, payload: seq<Word>, x: nat)
    requires payload != [] && EndOf(i, addStamp, payload) <= PAGE_WORDS && OneEvent(d, i, addStamp, delta, payload)
    ensures var e := EndOf(i, addStamp, payload);
            Tiled(d, i, e) && Walk(d, i, e, x) == [Record(x + delta, payload)] && EndStamp(d, i, e, x) == x + delta
  {
    var e, left := EndOf(i, addStamp, payload), if addStamp then 0 else delta;
    var at := if addStamp then i + 2 else i;
    DataEventAt(d, at, left, payload);
    assert Tiled(d, e, e) && EventsOf(d, e, e) == Done;
    assert Tiled(d, at, e) && EventsOf(d, at, e) == Then(left, true, at, Done);
    if addStamp {
      assert EventOk(d, i, e) && EventWords(d, i) == 2;
      assert EventsOf(d, i, e) == Then(delta, false, i, Then(0, true, at, Done));
    }
    OneRecordOf(d, i, at, delta, x);
  }

  lemma OneRecordOf(d: Data, i: nat, at: nat, delta: nat, x: nat)
    ensures var a, b := Then(delta, true, at, Done), Then(delta, false, i, Then(0, true, at, Done));
            && RecordsOf(d, a, x) == RecordsOf(d, b, x) == [Record(x + delta, PayloadAt(d, at))]
            && StampAfter(a, x) == StampAfter(b, x) == x + delta
  {
    assert RecordsOf(d, Done, x + delta) == [];
    assert RecordsOf(d, Then(0, true, at, Done), x + delta) == [Record(x + delta, PayloadAt(d, at))];
  }

  // The first event of a page bears the time stamp of the page.
  lemma FirstRecord(d: Data, addStamp: bool, p: Delta, payload: seq<Word>, ts: nat)
    requires payload != [] && EndOf(0, addStamp, payload) <= PAGE_WORDS && (!addStamp ==> p.low == 0)
    ensures var d', e := Append(d, 0, addStamp, p, payload), EndOf(0, addStamp, payload);
            Tiled(d', 0, e) && Walk(d', 0, e, ts) == [Record(ts, payload)] && EndStamp(d', 0, e, ts) == ts
  {
    AppendShape(d, 0, addStamp, p, payload);
    OneRecord(Append(d, 0, addStamp, p, payload), 0, addStamp, 0, payload, ts);
  }

  // A page that goes on with one record.
  // Walked from word `s`, page `d'` up to word `e` gives the records of `d` up to word `i` and then `r`.
  predicate Extends(d: Data, d': Data, s: nat, i: nat, e: nat, stamp: nat, r: Record) {
    match r
    case Record(ts, _) =>
      && i <= |d| && e <= |d'| && Tiled(d, s, i) && Tiled(d', s, e)
      && Walk(d', s, e, stamp) == Walk(d, s, i, stamp) + [r]
      && EndStamp(d', s, e, stamp) == ts
  }

  lemma OneMore(d: Data, d': Data, s: nat, i: nat, e: nat, stamp: nat, r: Record)
    requires i <= e <= |d| && i < |d| && Tiled(d, s, i) && Agree(d, d', i) && Tiled(d', i, e)
    requires Walk(d', i, e, EndStamp(d, s, i, stamp)) == [r] && EndStamp(d', i, e, EndStamp(d, s, i, stamp)) == r.ts
    ensures Extends(d, d', s, i, e, stamp, r)
  {
    WalkConcat(d, d', s, i, e, stamp);
  }

  lemma EventExtends(d: Data, d': Data, s: nat, i: nat, addStamp: bool, delta: nat, payload: seq<Word>, stamp: nat)
    requires payload != [] && EndOf(i, addStamp, payload) <= PAGE_WORDS && s <= i && Tiled(d, s, i)
    requires Agree(d, d', i) && OneEvent(d', i, addStamp, delta, payload)
    ensures Extends(d, d', s, i, EndOf(i, addStamp, payload), stamp, Record(EndStamp(d, s, i, stamp) + delta, payload))
  {
    var x := EndStamp(d, s, i, stamp);
    OneRecord(d', i, addStamp, delta, payload, x);
    OneMore(d, d', s, i, EndOf(i, addStamp, payload), stamp, Record(x + delta, payload));
  }

  /** Appending an event to a tiled page tiles the longer page; the walk gains exactly that event,
      stamped with the running time stamp plus the recorded delta. */
  lemma AppendWalk(d: Data, s: nat, i: nat, addStamp: bool, p: Delta, payload: seq<Word>, stamp: nat)
    requires payload != [] && EndOf(i, addStamp, payload) <= PAGE_WORDS
    requires s <= i && Tiled(d, s, i)
    ensures Extends(d, Append(d, i, addStamp, p, payload), s, i, EndOf(i, addStamp, payload), stamp,
                    Record(EndStamp(d, s, i, stamp) + Encoded(i, addStamp, p), payload))
  {
    AppendShape(d, i, addStamp, p, payload);
    EventExtends(d, Append(d, i, addStamp, p, payload), s, i, addStamp, Encoded(i, addStamp, p), payload, stamp);
  }

  /** Closing a page adds at most one padding event, behind everything else, and no record. */
  lemma PadWalk(d: Data, s: nat, tail: nat, stamp: nat)
    requires s <= tail <= |d| && Tiled(d, s, tail)
    ensures var d', e := PadPage(d, tail), PaddedEnd(tail);
            && Tiled(d', s, e)
            && Walk(d', s, e, stamp) == Walk(d, s, tail, stamp)
            && EndStamp(d', s, e, stamp) == EndStamp(d, s, tail, stamp)
  {
    if tail < |d| {
      PadEvent(d, tail);
      NoRecordOf(PadPage(d, tail), tail, EndStamp(d, s, tail, stamp));
      WalkConcat(d, PadPage(d, tail), s, tail, PaddedEnd(tail), stamp);
    }
  }

  lemma PadEvent(d: Data, tail: nat)
    requires tail < |d|
    ensures var d', e := PadPage(d, tail), PaddedEnd(tail);
            && Agree(d, d', tail) && tail <= e && Tiled(d', tail, e)
            && EventsOf(d', tail, e) == (if tail < e then Then(0, false, tail, Done) else Done)
  {
    var d', e := PadPage(d, tail), PaddedEnd(tail);
    if tail < e {
      assert EventOk(d', tail, e) && EventWords(d', tail) == e - tail;
      assert Tiled(d', e, e) && EventsOf(d', e, e) == Done;
    }
  }

  lemma NoRecordOf(d: Data, at: nat, x: nat)
    ensures RecordsOf(d, Then(0, false, at, Done), x) == [] && StampAfter(Then(0, false, at, Done), x) == x
  {
    assert RecordsOf(d, Done, x) == [] && StampAfter(Done, x) == x;
  }

  // ring_buffer_event_length: the size of the payload area of the event at `i`.
  function RingBufferEventLength(d: Data, i: nat): int
    requires Described(d, i)
  {
    var at := if d[i].typeLen == RINGBUF_TYPE_TIME_EXTEND then i + 2 else i;
    var length := 4 * EventWords(d, at);
    if d[at].typeLen > RINGBUF_TYPE_DATA_TYPE_LEN_MAX then length
    else
      var l := length - RB_EVNT_HDR_SIZE;
      if l > RB_MAX_SMALL_DATA + 4 then l - 4 else l
  }

  /** The reported length of an event is what its writer asked for, at least one byte, rounded up to
      the alignment, and the payload area ends where the event does. */
  lemma ReportedLength(d: Data, i: nat, length: nat, addStamp: bool, p: Delta, payload: seq<Word>)
    requires |payload| == PayloadWords(length) && EndOf(i, addStamp, payload) <= PAGE_WORDS
    ensures var d' := Append(d, i, addStamp, p, payload);
            && Described(d', i)
            && RingBufferEventLength(d', i) == ((if length == 0 then 1 else length) + 3) / 4 * 4
            && DataStart(d', i) + |payload| == EndOf(i, addStamp, payload)
  {
    AppendShape(d, i, addStamp, p, payload);
    var d', at := Append(d, i, addStamp, p, payload), if addStamp then i + 2 else i;
    DataEventAt(d', at, if addStamp then 0 else p.low, payload);
  }
}
