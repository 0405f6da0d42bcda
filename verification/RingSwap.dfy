/**
 The page swap between the writer of a per-CPU trace buffer and its reader on another CPU.

 The pages of the ring are chained by `next` links that carry two flag bits.  The link into the
 head page is flagged HEAD.  An overwriting writer that reaches it re-flags it UPDATE, flags the
 following link HEAD and then clears its own; a reader that wants the head page swaps its spare page
 in with a compare-and-exchange that expects HEAD.  Each load, store or compare-and-exchange on the
 shared links is one step, and writer and reader interleave in any way.  The writer is not
 interrupted by other writers, and the reader holds the reader lock.

 An event that does not fit on the page the tail has just moved to makes the same reservation move
 the tail again, while the commit page stays behind until the reservation ends.

 `ring` is the ghost order of the pages, head page first.
 */
module RingSwap {
  import opened Lists

  datatype Flag = Normal | Head | Update
  datatype Link = Link(to: nat, flag: Flag)

  datatype WriterPc =
    | Idle                                  // writing on the tail page, everything committed
    | ReadNext                              // the tail page is full
    | TestHead(nx: nat)
    | ReaderTestPrev(nx: nat)               // rb_is_reader_page(commit_page): load its prev ...
    | ReaderTestNext(nx: nat, p: nat)       // ... and that page's next
    | TestReader(nx: nat)                   // the commit page was found outside: is it the reader's?
    | SetUpdate(nx: nat)
    | ReadNewHead(nx: nat, ours: bool)      // ours: this writer has set the UPDATE it found
    | SetHead(nx: nat, newHead: nat, ours: bool)
    | SetNormal(nx: nat)
    | SwapTail(nx: nat, onReader: bool)     // onReader: the commit page was found outside the ring
    | CommitCompare
    | CommitTestPrev                        // rb_is_reader_page(tail_page)
    | CommitTestNext(p: nat)
    | CommitAdvance
    | Warned(handing: bool)                 // RB_WARN_ON, in the hand-over or the commit loop: the buffer is off

  datatype ReaderPc =
    | Out
    | CheckCommit
    | ScanPrev(page: nat)
    | ScanNext(page: nat, p: nat)
    | ScanInc(page: nat)
    | CopyNext(h: nat)
    | CopyPrev(h: nat)
    | SetHeadFlag(h: nat)
    | LoadLink(h: nat)
    | Replace(h: nat, p: nat, v: nat)
    | FixPrev(h: nat)
    | IncHead(h: nat)
    | Take(h: nat)

  datatype State = State(
    next: imap<nat, Link>,
    prev: imap<nat, nat>,
    tailPage: nat,
    commitPage: nat,
    headPage: nat,
    readerPage: nat,
    writer: WriterPc,
    reader: ReaderPc,
    ring: seq<nat>)

  // Who moves next.  `giveUp` covers the tests outside this model that end a reader's attempt:
  // an empty buffer, unread data on the reader page, the bounded number of rounds.  `stop` covers those
  // that end a reservation: the attempts are used up, the buffer does not overwrite, the event fits.
  datatype Choice = Write(stop: bool) | Read(giveUp: bool)

  ghost predicate AllPages(s: State) {
    && (forall x: nat :: x in s.next)
    && (forall x: nat :: x in s.prev)
  }

  ghost predicate Ready(s: State) {
    AllPages(s) && s.ring != []
  }

  /// The writer: rb_move_tail, rb_handle_head_page, rb_set_commit_to_write

  ghost function SetLink(s: State, x: nat, l: Link): State {
    s.(next := s.next[x := l])
  }

  ghost function WriterStep(s: State, stop: bool): State
    requires Ready(s)
  {
    match s.writer
    case Idle => s.(writer := ReadNext)
    case ReadNext =>
      var nx := s.next[s.tailPage].to;
      if stop || nx == s.commitPage then s.(writer := CommitCompare) else s.(writer := TestHead(nx))
    case TestHead(nx) =>
      if s.next[s.tailPage] == Link(nx, Normal) then s.(writer := SwapTail(nx, false))
      else s.(writer := ReaderTestPrev(nx))
    case ReaderTestPrev(nx) => s.(writer := ReaderTestNext(nx, s.prev[s.commitPage]))
    case ReaderTestNext(nx, p) =>
      if s.next[p].to != s.commitPage then s.(writer := TestReader(nx)) else s.(writer := SetUpdate(nx))
    case TestReader(nx) =>
      if s.commitPage != s.tailPage && s.commitPage == s.readerPage then s.(writer := CommitCompare)
      else s.(writer := SwapTail(nx, true))
    case SetUpdate(nx) =>
      if stop then s.(writer := CommitCompare)
      else if s.next[s.tailPage] == Link(nx, Head) then
        SetLink(s, s.tailPage, Link(nx, Update)).(writer := ReadNewHead(nx, true))
      else if s.next[s.tailPage] == Link(nx, Update) then s.(writer := ReadNewHead(nx, false))
      else s.(writer := ReadNext)
    case ReadNewHead(nx, ours) => s.(writer := SetHead(nx, s.next[nx].to, ours))
    case SetHead(nx, newHead, ours) =>
      var after := if ours then SetNormal(nx) else SwapTail(nx, false);
      if s.next[nx] == Link(newHead, Normal) then
        SetLink(s, nx, Link(newHead, Head)).(writer := after, ring := s.ring[1..] + [s.ring[0]])
      else if s.next[nx] == Link(newHead, Head) then s.(writer := after)
      else s.(writer := Warned(true))
    case SetNormal(nx) =>
      if s.next[s.tailPage] == Link(nx, Update) then
        SetLink(s, s.tailPage, Link(nx, Normal)).(writer := SwapTail(nx, false))
      else s.(writer := Warned(true))
    case SwapTail(nx, _) => s.(tailPage := nx, writer := if stop then CommitCompare else ReadNext)
    case CommitCompare => s.(writer := if s.commitPage != s.tailPage then CommitTestPrev else Idle)
    case CommitTestPrev => s.(writer := CommitTestNext(s.prev[s.tailPage]))
    case CommitTestNext(p) => s.(writer := if s.next[p].to != s.tailPage then Warned(false) else CommitAdvance)
    case CommitAdvance => s.(commitPage := s.next[s.commitPage].to, writer := CommitCompare)
    case Warned(_) => s
  }

  /// The reader: rb_get_reader_page, rb_set_head_page, rb_head_page_replace

  ghost function ReaderStep(s: State, giveUp: bool): State
    requires Ready(s)
  {
    match s.reader
    case Out => s.(reader := CheckCommit)
    case CheckCommit =>
      if s.commitPage == s.readerPage || giveUp then s.(reader := Out) else s.(reader := ScanPrev(s.headPage))
    case ScanPrev(page) => if giveUp then s.(reader := Out) else s.(reader := ScanNext(page, s.prev[page]))
    case ScanNext(page, p) =>
      // RB_PAGE_MOVED counts as a hit, like HEAD and UPDATE.
      if s.next[p] == Link(page, Normal) then s.(reader := ScanInc(page))
      else s.(headPage := page, reader := CopyNext(page))
    case ScanInc(page) => s.(reader := ScanPrev(s.next[page].to))
    case CopyNext(h) => SetLink(s, s.readerPage, Link(s.next[h].to, Normal)).(reader := CopyPrev(h))
    case CopyPrev(h) => s.(prev := s.prev[s.readerPage := s.prev[h]], reader := SetHeadFlag(h))
    case SetHeadFlag(h) => SetLink(s, s.readerPage, s.next[s.readerPage].(flag := Head)).(reader := LoadLink(h))
    case LoadLink(h) => s.(reader := Replace(h, s.prev[h], s.next[s.prev[h]].to))
    case Replace(h, p, v) =>
      if s.next[p] == Link(v, Head) then
        SetLink(s, p, Link(s.readerPage, Normal)).(reader := FixPrev(h), ring := s.ring[1..] + [s.readerPage])
      else s.(reader := ScanPrev(s.headPage))
    case FixPrev(h) => s.(prev := s.prev[s.next[h].to := s.readerPage], reader := IncHead(h))
    case IncHead(h) => s.(headPage := s.next[s.headPage].to, reader := Take(h))
    case Take(h) => s.(readerPage := h, reader := Out)
  }

  ghost function Step(s: State, c: Choice): State
    requires Ready(s)
  {
    match c
    case Write(stop) => WriterStep(s, stop)
    case Read(giveUp) => ReaderStep(s, giveUp)
  }

  lemma WriterReady(s: State, stop: bool)
    requires Ready(s)
    ensures Ready(WriterStep(s, stop))
  {
  }

  lemma ReaderReady(s: State, giveUp: bool)
    requires Ready(s)
    ensures Ready(ReaderStep(s, giveUp))
  {
  }

  lemma StepReady(s: State, c: Choice)
    requires Ready(s)
    ensures Ready(Step(s, c))
  {
    match c
    case Write(stop) => WriterReady(s, stop);
    case Read(giveUp) => ReaderReady(s, giveUp);
  }

  // The same reservation goes on from the page its tail has just moved to.
  predicate Retries(s: State, c: Choice) {
    c.Write? && !c.stop && s.writer.SwapTail?
  }

  // It does so after it has taken a commit page in the ring for the reader's.
  predicate Misled(s: State, c: Choice) {
    Retries(s, c) && s.writer.onReader && s.commitPage != Off(s)
  }

  /// The invariant

  // The page outside the ring: the reader's, or the one it has just swapped out.
  function Off(s: State): nat {
    match s.reader
    case FixPrev(h) => h
    case IncHead(h) => h
    case Take(h) => h
    case _ => s.readerPage
  }

  predicate Swapped(r: ReaderPc) {
    r.FixPrev? || r.IncHead? || r.Take?
  }

  // Past the test of the commit page and before the swap.
  predicate Swapping(r: ReaderPc) {
    !r.Out? && !r.CheckCommit? && !Swapped(r)
  }

  // The writer has flagged its link UPDATE: before, and after, the next link became HEAD.
  predicate Handing(w: WriterPc) {
    w.ReadNewHead? || w.SetHead?
  }

  predicate Committing(w: WriterPc) {
    w.CommitCompare? || w.CommitTestPrev? || w.CommitTestNext? || w.CommitAdvance? || w.Warned?
  }

  function Succ(s: State, i: nat): nat
    requires i < |s.ring|
  {
    if i + 1 < |s.ring| then s.ring[i + 1] else s.ring[0]
  }

  ghost predicate NextAt(s: State, i: nat)
    requires AllPages(s) && i < |s.ring|
  {
    s.next[s.ring[i]].to == Succ(s, i)
  }

  // The links of the ring pages form one simple cycle that the page outside is not on.
  ghost predicate Cycle(s: State) {
    && AllPages(s)
    && 2 <= |s.ring|
    && Distinct(s.ring)
    && Off(s) !in s.ring
    && (forall i | 0 <= i < |s.ring| :: NextAt(s, i))
  }

  // The link into the head page is flagged; no other link is, but for the writer's hand-over.
  ghost predicate Flags(s: State)
    requires AllPages(s) && 2 <= |s.ring|
  {
    var last := |s.ring| - 1;
    && s.next[s.ring[last]].flag == (if Handing(s.writer) then Update else Head)
    && (forall i | 0 <= i < last :: s.next[s.ring[i]].flag ==
          (if s.writer.SetNormal? && s.ring[i] == s.tailPage then Update else Normal))
  }

  ghost predicate PrevAt(s: State, i: nat)
    requires AllPages(s) && i < |s.ring|
  {
    var y := Succ(s, i);
    if s.reader.FixPrev? && s.ring[i] == s.readerPage then s.prev[y] == s.reader.h && s.next[s.reader.h].to == y
    else s.prev[y] == s.ring[i]
  }

  ghost predicate ReaderOk(s: State)
    requires AllPages(s)
  {
    && (s.headPage in s.ring || ((s.reader.FixPrev? || s.reader.IncHead?) && s.headPage == s.reader.h))
    && (Swapped(s.reader) ==> s.readerPage in s.ring && s.next[s.reader.h].to in s.ring)
    && match s.reader
       case ScanPrev(page) => page in s.ring
       case ScanNext(page, p) => page in s.ring && p == s.prev[page]
       case ScanInc(page) => page in s.ring
       case CopyNext(h) => h in s.ring && s.headPage == h
       case CopyPrev(h) => h in s.ring && s.headPage == h && s.next[s.readerPage].to == s.next[h].to
       case SetHeadFlag(h) =>
         h in s.ring && s.headPage == h && s.next[s.readerPage].to == s.next[h].to && s.prev[s.readerPage] == s.prev[h]
       case LoadLink(h) =>
         h in s.ring && s.headPage == h && s.next[s.readerPage] == Link(s.next[h].to, Head) && s.prev[s.readerPage] == s.prev[h]
       case Replace(h, p, v) =>
         && h in s.ring && s.headPage == h && s.next[s.readerPage] == Link(s.next[h].to, Head)
         && s.prev[s.readerPage] == s.prev[h] == p && v == h
       case FixPrev(h) => s.headPage == h
       case IncHead(h) => s.headPage == h
       case _ => true
  }

  ghost predicate OnSomePage(s: State, x: nat) {
    x in s.ring || x == Off(s)
  }

  // The next page as the writer knows it is the one after its tail, and is not flagged as head page.
  ghost predicate Adjacent(s: State, nx: nat)
    requires AllPages(s)
  {
    s.next[s.tailPage] == Link(nx, Normal)
  }

  // Where the page the writer saw after its tail can be once the reader has moved on: still the head
  // page, with the reader, behind the page that replaced it, or there with the tail itself taken.
  ghost predicate Overtaken(s: State, nx: nat)
    requires 2 <= |s.ring|
  {
    var n := |s.ring|;
    || (s.tailPage == s.ring[n - 1] && nx == s.ring[0])
    || (s.tailPage == s.ring[n - 2] && nx == Off(s))
    || (exists i :: 0 <= i < n - 2 && s.tailPage == s.ring[i] && nx == s.ring[i + 2])
    || (s.tailPage == Off(s) && nx == s.ring[1])
  }

  // Counted from the head page, the commit page is not past the tail page; a page outside the ring
  // comes before all others.
  ghost predicate Behind(s: State) {
    && (s.tailPage == Off(s) ==> s.commitPage == s.tailPage)
    && (forall i, j | 0 <= i < |s.ring| && 0 <= j < |s.ring| && s.ring[i] == s.commitPage && s.ring[j] == s.tailPage :: i <= j)
  }

  ghost predicate Located(s: State)
    requires AllPages(s)
  {
    && OnSomePage(s, s.tailPage) && OnSomePage(s, s.commitPage)
    && (Swapping(s.reader) ==> s.commitPage != s.readerPage)
    && (s.commitPage == Off(s) ==> s.next[Off(s)].to in s.ring && s.prev[Off(s)] in s.ring)
    && (s.tailPage == Off(s) && s.commitPage == s.tailPage ==>
          s.next[s.tailPage].flag == (if s.writer.SetNormal? then Update else Normal))
  }

  // The hand-over: the head page follows the tail page.
  ghost predicate AtHead(s: State, nx: nat, ours: bool)
    requires 2 <= |s.ring|
  {
    ours && s.tailPage == s.ring[|s.ring| - 1] && nx == s.ring[0] && s.commitPage in s.ring
  }

  ghost predicate Knows(s: State)
    requires AllPages(s) && 2 <= |s.ring|
  {
    match s.writer
    case TestHead(nx) => nx != s.commitPage && (Overtaken(s, nx) || Adjacent(s, nx))
    case ReaderTestPrev(nx) => nx != s.commitPage && Overtaken(s, nx)
    case ReaderTestNext(nx, p) => nx != s.commitPage && Overtaken(s, nx) && OnSomePage(s, p)
    case TestReader(nx) => nx != s.commitPage && Overtaken(s, nx)
    case SetUpdate(nx) =>
      && nx != s.commitPage && Overtaken(s, nx)
      && (s.tailPage == s.ring[|s.ring| - 1] && nx == s.ring[0] ==> s.commitPage != Off(s))
    case ReadNewHead(nx, ours) => nx != s.commitPage && AtHead(s, nx, ours)
    case SetHead(nx, newHead, ours) => nx != s.commitPage && AtHead(s, nx, ours) && newHead == s.ring[1]
    case SetNormal(nx) => nx != s.commitPage && nx in s.ring && s.next[s.tailPage] == Link(nx, Update)
    case SwapTail(nx, onReader) =>
      nx != s.commitPage && if onReader then Overtaken(s, nx) else nx in s.ring && Adjacent(s, nx)
    case _ => true
  }

  ghost predicate WriterOk(s: State)
    requires AllPages(s) && 2 <= |s.ring|
  {
    Located(s) && (Committing(s.writer) || Behind(s)) && Knows(s)
  }

  ghost predicate Inv(s: State) {
    && Cycle(s)
    && Flags(s)
    && Prevs(s)
    && ReaderOk(s)
    && WriterOk(s)
  }

  ghost predicate Prevs(s: State)
    requires AllPages(s)
  {
    forall i | 0 <= i < |s.ring| :: PrevAt(s, i)
  }

  /// Writer steps

  // The writer changes flags, its own program counter and its two page pointers, nothing else.
  ghost predicate WriterOnly(s: State, t: State)
    requires AllPages(s)
  {
    && AllPages(t)
    && (forall x: nat :: t.next[x].to == s.next[x].to)
    && (Swapping(s.reader) ==> t.next[s.readerPage] == s.next[s.readerPage])
    && t.prev == s.prev && t.headPage == s.headPage && t.readerPage == s.readerPage && t.reader == s.reader
  }

  lemma WriterOnlyKeeps(s: State, t: State)
    requires Cycle(s) && Prevs(s) && ReaderOk(s) && WriterOnly(s, t) && t.ring == s.ring
    ensures Cycle(t) && Prevs(t) && ReaderOk(t)
  {
    forall i | 0 <= i < |t.ring|
      ensures NextAt(t, i) && PrevAt(t, i)
    {
      assert NextAt(s, i) && PrevAt(s, i);
    }
  }

  lemma RingNext(s: State, x: nat) returns (i: nat)
    requires Cycle(s) && x in s.ring
    ensures i < |s.ring| && s.ring[i] == x && s.next[x].to == Succ(s, i)
    ensures s.next[x].to in s.ring && s.next[x].to != x
  {
    i :| 0 <= i < |s.ring| && s.ring[i] == x;
    assert NextAt(s, i);
  }

  lemma RingPageTest(s: State, x: nat)
    requires Cycle(s) && Prevs(s) && x in s.ring
    ensures s.next[s.prev[x]].to == x && OnSomePage(s, s.prev[x])
  {
    var k :| 0 <= k < |s.ring| && s.ring[k] == x;
    var i := if k == 0 then |s.ring| - 1 else k - 1;
    assert PrevAt(s, i) && NextAt(s, i);
  }

  // The writer moves on in its code and nothing else changes.
  ghost predicate OnlyPc(s: State, t: State) {
    t == s.(writer := t.writer)
  }

  lemma OnlyPcKeeps(s: State, t: State)
    requires AllPages(s) && Located(s) && Behind(s) && OnlyPc(s, t) && !s.writer.SetNormal? && !t.writer.SetNormal?
    ensures AllPages(t) && Located(t) && Behind(t)
  {
  }

  // The link of the tail page leads into the ring.
  lemma TailNext(s: State)
    requires Cycle(s) && Located(s) && Behind(s)
    ensures s.next[s.tailPage].to in s.ring && s.next[s.tailPage].to != s.tailPage
  {
    if s.tailPage in s.ring { var _ := RingNext(s, s.tailPage); }
  }

  lemma ReadNextWriter(s: State, stop: bool)
    requires Cycle(s) && Flags(s) && WriterOk(s) && s.writer.ReadNext?
    ensures WriterOk(WriterStep(s, stop))
  {
    OnlyPcKeeps(s, WriterStep(s, stop));
    if s.tailPage in s.ring { var i := RingNext(s, s.tailPage); }
  }

  lemma TestHeadWriter(s: State, stop: bool)
    requires Cycle(s) && WriterOk(s) && s.writer.TestHead?
    ensures WriterOk(WriterStep(s, stop))
  {
    OnlyPcKeeps(s, WriterStep(s, stop));
    TailNext(s);
  }

  lemma FirstLoadWriter(s: State, stop: bool)
    requires Cycle(s) && Prevs(s) && WriterOk(s) && s.writer.ReaderTestPrev?
    ensures WriterOk(WriterStep(s, stop))
  {
    OnlyPcKeeps(s, WriterStep(s, stop));
    if s.commitPage in s.ring { RingPageTest(s, s.commitPage); }
  }

  // The test never takes a page outside the ring for one in the ring.
  lemma SecondLoadWriter(s: State, stop: bool)
    requires Cycle(s) && WriterOk(s) && s.writer.ReaderTestNext?
    ensures WriterOk(WriterStep(s, stop))
  {
    OnlyPcKeeps(s, WriterStep(s, stop));
    if s.writer.p in s.ring { var _ := RingNext(s, s.writer.p); }
  }

  lemma TestReaderWriter(s: State, stop: bool)
    requires Cycle(s) && WriterOk(s) && s.writer.TestReader?
    ensures WriterOk(WriterStep(s, stop))
  {
    OnlyPcKeeps(s, WriterStep(s, stop));
  }

  lemma NewHeadWriter(s: State, stop: bool)
    requires Cycle(s) && WriterOk(s) && s.writer.ReadNewHead?
    ensures WriterOk(WriterStep(s, stop))
  {
    OnlyPcKeeps(s, WriterStep(s, stop));
    assert NextAt(s, 0);
  }

  // The tail moves to a page behind the commit page, unless the writer was misled.
  lemma SwapTailWriter(s: State, stop: bool)
    requires Cycle(s) && Flags(s) && WriterOk(s) && s.writer.SwapTail? && !Misled(s, Write(stop))
    ensures WriterOk(WriterStep(s, stop))
  {
    if s.tailPage in s.ring { var i := RingNext(s, s.tailPage); }
  }

  lemma CommitNext(s: State)
    requires Cycle(s) && Located(s)
    ensures s.next[s.commitPage].to in s.ring
  {
    if s.commitPage in s.ring { var _ := RingNext(s, s.commitPage); }
  }

  lemma CommitAdvanceWriter(s: State, stop: bool)
    requires Cycle(s) && WriterOk(s) && s.writer.CommitAdvance?
    ensures WriterOk(WriterStep(s, stop))
  {
    CommitNext(s);
  }

  lemma PlainWriter(s: State, stop: bool)
    requires Cycle(s) && WriterOk(s)
    requires s.writer.Idle? || s.writer.CommitCompare? || s.writer.CommitTestPrev? || s.writer.CommitTestNext? || s.writer.Warned?
    ensures WriterOk(WriterStep(s, stop))
  {
  }

  predicate FlagsLinks(w: WriterPc) {
    w.SetUpdate? || w.SetHead? || w.SetNormal?
  }

  lemma PointerStepWriter(s: State, stop: bool)
    requires Cycle(s) && Flags(s) && Prevs(s) && WriterOk(s) && !FlagsLinks(s.writer) && !Misled(s, Write(stop))
    ensures WriterOk(WriterStep(s, stop))
  {
    match s.writer
    case ReadNext => ReadNextWriter(s, stop);
    case TestHead(_) => TestHeadWriter(s, stop);
    case ReaderTestPrev(_) => FirstLoadWriter(s, stop);
    case ReaderTestNext(_, _) => SecondLoadWriter(s, stop);
    case TestReader(_) => TestReaderWriter(s, stop);
    case ReadNewHead(_, _) => NewHeadWriter(s, stop);
    case SwapTail(_, _) => SwapTailWriter(s, stop);
    case CommitAdvance => CommitAdvanceWriter(s, stop);
    case _ => PlainWriter(s, stop);
  }

  lemma PointerStepFlags(s: State, stop: bool)
    requires Cycle(s) && Flags(s) && !FlagsLinks(s.writer)
    ensures Flags(WriterStep(s, stop))
  {
  }

  lemma PointerStepOnly(s: State, stop: bool)
    requires Ready(s) && !FlagsLinks(s.writer)
    ensures WriterOnly(s, WriterStep(s, stop)) && WriterStep(s, stop).ring == s.ring
  {
  }

  // The loads and the moves of the two page pointers.
  lemma PointerStepKeeps(s: State, stop: bool)
    requires Inv(s) && !FlagsLinks(s.writer) && !Misled(s, Write(stop))
    ensures Inv(WriterStep(s, stop))
  {
    PointerStepOnly(s, stop);
    WriterOnlyKeeps(s, WriterStep(s, stop));
    PointerStepFlags(s, stop);
    PointerStepWriter(s, stop);
  }

  // Only the link into the head page is ever claimed, and only with the commit page in the ring.
  lemma ClaimsHead(s: State)
    requires Cycle(s) && Flags(s) && WriterOk(s) && s.writer.SetUpdate?
    ensures s.next[s.tailPage].flag != Update
    ensures s.next[s.tailPage] == Link(s.writer.nx, Head) ==> AtHead(s, s.writer.nx, true)
  {
    if s.tailPage in s.ring { var i := RingNext(s, s.tailPage); }
  }

  lemma SetUpdateFlags(s: State, stop: bool)
    requires Cycle(s) && Flags(s) && WriterOk(s) && s.writer.SetUpdate?
    ensures Flags(WriterStep(s, stop))
  {
    ClaimsHead(s);
  }

  lemma SetUpdateWriter(s: State, stop: bool)
    requires Cycle(s) && Flags(s) && WriterOk(s) && s.writer.SetUpdate?
    ensures WriterOk(WriterStep(s, stop))
  {
    ClaimsHead(s);
  }

  lemma SetUpdateOnly(s: State, stop: bool)
    requires AllPages(s) && 2 <= |s.ring| && WriterOk(s) && s.writer.SetUpdate?
    ensures WriterOnly(s, WriterStep(s, stop)) && WriterStep(s, stop).ring == s.ring
  {
  }

  lemma SetUpdateKeeps(s: State, stop: bool)
    requires Inv(s) && s.writer.SetUpdate?
    ensures Inv(WriterStep(s, stop))
  {
    SetUpdateOnly(s, stop);
    SetUpdateFlags(s, stop);
    WriterOnlyKeeps(s, WriterStep(s, stop));
    SetUpdateWriter(s, stop);
  }

  lemma SetNormalWriter(s: State, stop: bool)
    requires Cycle(s) && Flags(s) && WriterOk(s) && s.writer.SetNormal?
    ensures Flags(WriterStep(s, stop)) && WriterOk(WriterStep(s, stop))
  {
    if s.tailPage in s.ring { var i := RingNext(s, s.tailPage); }
  }

  lemma SetNormalKeeps(s: State, stop: bool)
    requires Inv(s) && s.writer.SetNormal?
    ensures Inv(WriterStep(s, stop))
  {
    WriterOnlyKeeps(s, WriterStep(s, stop));
    SetNormalWriter(s, stop);
  }

  lemma SetHeadCycle(s: State, stop: bool)
    requires Cycle(s) && Flags(s) && Prevs(s) && WriterOk(s) && s.writer.SetHead?
    ensures var t := WriterStep(s, stop); t.ring == s.ring[1..] + [s.ring[0]] && Cycle(t) && Prevs(t)
  {
    var t := WriterStep(s, stop);
    var n := |s.ring|;
    assert NextAt(s, 0) && NextAt(s, n - 1);
    assert s.next[s.ring[0]] == Link(s.ring[1], Normal);
    Rotated(s.ring, t.ring);
    forall i | 0 <= i < n
      ensures NextAt(t, i) && PrevAt(t, i)
    {
      var k := if i < n - 1 then i + 1 else 0;
      assert NextAt(s, k) && PrevAt(s, k);
    }
  }

  lemma SetHeadWriter(s: State, stop: bool)
    requires Cycle(s) && Flags(s) && WriterOk(s) && s.writer.SetHead?
    ensures var t := WriterStep(s, stop); AllPages(t) && 2 <= |t.ring| && Flags(t) && WriterOk(t)
  {
    assert NextAt(s, 0) && NextAt(s, |s.ring| - 1);
    Rotated(s.ring, s.ring[1..] + [s.ring[0]]);
  }

  lemma SetHeadReader(s: State, stop: bool)
    requires Cycle(s) && ReaderOk(s) && WriterOk(s) && s.writer.SetHead?
    ensures var t := WriterStep(s, stop); AllPages(t) && ReaderOk(t)
  {
    Rotated(s.ring, s.ring[1..] + [s.ring[0]]);
    SetHeadOnly(s, stop);
    WriterOnlyReader(s, WriterStep(s, stop));
  }

  lemma SetHeadOnly(s: State, stop: bool)
    requires Ready(s) && 2 <= |s.ring| && Knows(s) && Off(s) !in s.ring && s.writer.SetHead?
    ensures WriterOnly(s, WriterStep(s, stop))
  {
  }

  lemma WriterOnlyReader(s: State, t: State)
    requires AllPages(s) && ReaderOk(s) && WriterOnly(s, t) && forall x :: x in t.ring <==> x in s.ring
    ensures ReaderOk(t)
  {
  }

  // Pushing the head page forward turns the ring by one page.
  lemma SetHeadKeeps(s: State, stop: bool)
    requires Inv(s) && s.writer.SetHead?
    ensures Inv(WriterStep(s, stop))
  {
    SetHeadCycle(s, stop);
    SetHeadWriter(s, stop);
    SetHeadReader(s, stop);
  }

  lemma Rotated(ring: seq<nat>, turned: seq<nat>)
    requires 2 <= |ring| && Distinct(ring) && turned == ring[1..] + [ring[0]]
    ensures |turned| == |ring| && Distinct(turned)
    ensures forall i | 0 <= i < |ring| - 1 :: turned[i] == ring[i + 1]
    ensures turned[|ring| - 1] == ring[0]
    ensures forall x :: x in turned <==> x in ring
  {
    forall x
      ensures x in turned <==> x in ring
    {
      if x in ring {
        var k :| 0 <= k < |ring| && ring[k] == x;
        assert k > 0 ==> turned[k - 1] == x;
      }
    }
  }

  lemma WriterKeeps(s: State, stop: bool)
    requires Inv(s) && !Misled(s, Write(stop))
    ensures Inv(WriterStep(s, stop))
  {
    match s.writer
    case SetUpdate(_) => SetUpdateKeeps(s, stop);
    case SetHead(_, _, _) => SetHeadKeeps(s, stop);
    case SetNormal(_) => SetNormalKeeps(s, stop);
    case _ => PointerStepKeeps(s, stop);
  }

  /// Reader steps

  // The reader changes the page outside the ring, its own program counter and its head page guess.
  ghost predicate ReaderOnly(s: State, t: State)
    requires AllPages(s)
  {
    && AllPages(t)
    && (forall x: nat :: x != s.readerPage || !Swapping(s.reader) ==> t.next[x] == s.next[x] && t.prev[x] == s.prev[x])
    && t.tailPage == s.tailPage && t.commitPage == s.commitPage && t.writer == s.writer && t.ring == s.ring
    && Off(t) == Off(s)
    && !s.reader.FixPrev? && !t.reader.FixPrev?
  }

  lemma ReaderOnlyKeeps(s: State, t: State)
    requires Inv(s) && ReaderOnly(s, t)
    requires Swapping(t.reader) ==> t.commitPage != t.readerPage
    ensures Cycle(t) && Flags(t) && Prevs(t) && WriterOk(t)
  {
    forall i | 0 <= i < |t.ring|
      ensures NextAt(t, i) && PrevAt(t, i)
    {
      assert NextAt(s, i) && PrevAt(s, i);
    }
    ReaderOnlyWriter(s, t);
  }

  lemma ReaderOnlyWriter(s: State, t: State)
    requires Cycle(s) && Flags(s) && WriterOk(s) && ReaderOnly(s, t)
    requires Swapping(t.reader) ==> t.commitPage != t.readerPage
    ensures WriterOk(t)
  {
  }

  lemma RingPrev(s: State, x: nat) returns (i: nat)
    requires Cycle(s) && Prevs(s) && x in s.ring && !s.reader.FixPrev?
    ensures i < |s.ring| && Succ(s, i) == x && s.prev[x] == s.ring[i] && s.next[s.prev[x]].to == x
  {
    var k :| 0 <= k < |s.ring| && s.ring[k] == x;
    i := if k == 0 then |s.ring| - 1 else k - 1;
    assert PrevAt(s, i) && NextAt(s, i);
  }

  lemma ScanStepKeeps(s: State, giveUp: bool)
    requires Inv(s)
    requires s.reader.Out? || s.reader.CheckCommit? || s.reader.ScanPrev? || s.reader.ScanNext? || s.reader.ScanInc?
    ensures Inv(ReaderStep(s, giveUp))
  {
    ReaderOnlyKeeps(s, ReaderStep(s, giveUp));
    ScanStepReader(s, giveUp);
  }

  lemma ScanStepReader(s: State, giveUp: bool)
    requires Cycle(s) && ReaderOk(s)
    requires s.reader.Out? || s.reader.CheckCommit? || s.reader.ScanPrev? || s.reader.ScanNext? || s.reader.ScanInc?
    ensures ReaderOk(ReaderStep(s, giveUp))
  {
    if s.reader.ScanInc? { var _ := RingNext(s, s.reader.page); }
  }

  lemma CopyStepKeeps(s: State, giveUp: bool)
    requires Inv(s)
    requires s.reader.CopyNext? || s.reader.CopyPrev? || s.reader.SetHeadFlag? || s.reader.LoadLink? || s.reader.Take?
    ensures Inv(ReaderStep(s, giveUp))
  {
    ReaderOnlyKeeps(s, ReaderStep(s, giveUp));
    CopyStepReader(s, giveUp);
  }

  lemma CopyStepReader(s: State, giveUp: bool)
    requires Cycle(s) && Prevs(s) && ReaderOk(s)
    requires s.reader.CopyNext? || s.reader.CopyPrev? || s.reader.SetHeadFlag? || s.reader.LoadLink? || s.reader.Take?
    ensures AllPages(ReaderStep(s, giveUp)) && ReaderOk(ReaderStep(s, giveUp))
  {
    if s.reader.LoadLink? { var _ := RingPrev(s, s.reader.h); }
  }

  lemma ReplaceFailKeeps(s: State, giveUp: bool)
    requires Inv(s) && s.reader.Replace? && s.next[s.reader.p] != Link(s.reader.v, Head)
    ensures Inv(ReaderStep(s, giveUp))
  {
    ReaderOnlyKeeps(s, ReaderStep(s, giveUp));
  }

  lemma FixPrevLinks(s: State, giveUp: bool)
    requires Cycle(s) && Prevs(s) && ReaderOk(s) && s.reader.FixPrev?
    ensures Cycle(ReaderStep(s, giveUp)) && Prevs(ReaderStep(s, giveUp))
  {
    var t := ReaderStep(s, giveUp);
    var k :| 0 <= k < |s.ring| && s.ring[k] == s.readerPage;
    assert PrevAt(s, k);
    forall i | 0 <= i < |t.ring|
      ensures NextAt(t, i) && PrevAt(t, i)
    {
      assert NextAt(s, i) && PrevAt(s, i);
    }
  }

  lemma FixPrevKeeps(s: State, giveUp: bool)
    requires Inv(s) && s.reader.FixPrev?
    ensures Inv(ReaderStep(s, giveUp))
  {
    FixPrevLinks(s, giveUp);
    FixPrevWriter(s, giveUp);
  }

  lemma FixPrevWriter(s: State, giveUp: bool)
    requires Cycle(s) && ReaderOk(s) && WriterOk(s) && s.reader.FixPrev?
    ensures var t := ReaderStep(s, giveUp); AllPages(t) && ReaderOk(t) && WriterOk(t)
  {
  }

  lemma IncHeadKeeps(s: State, giveUp: bool)
    requires Inv(s) && s.reader.IncHead?
    ensures Inv(ReaderStep(s, giveUp))
  {
    var t := ReaderStep(s, giveUp);
    forall i | 0 <= i < |t.ring|
      ensures NextAt(t, i) && PrevAt(t, i)
    {
      assert NextAt(s, i) && PrevAt(s, i);
    }
  }

  // A successful swap only ever finds the head page, with no hand-over pending on it.
  lemma ReplaceFinds(s: State)
    requires Inv(s) && s.reader.Replace? && s.next[s.reader.p] == Link(s.reader.v, Head)
    ensures s.reader.h == s.reader.v == s.ring[0]
    ensures s.reader.p == s.ring[|s.ring| - 1]
    ensures !Handing(s.writer)
    ensures s.next[s.ring[0]].to == s.ring[1]
    ensures s.next[s.readerPage] == Link(s.ring[1], Head)
  {
    var i := RingPrev(s, s.reader.h);
    assert NextAt(s, 0);
  }

  lemma SwapCycle(s: State, giveUp: bool)
    requires Inv(s) && s.reader.Replace? && s.next[s.reader.p] == Link(s.reader.v, Head)
    ensures var t := ReaderStep(s, giveUp); Cycle(t) && Prevs(t)
  {
    ReplaceFinds(s);
    var t, n := ReaderStep(s, giveUp), |s.ring|;
    forall i | 0 <= i < n
      ensures NextAt(t, i) && PrevAt(t, i)
    {
      if i < n - 1 {
        assert NextAt(s, i + 1) && PrevAt(s, i + 1);
      } else {
        assert PrevAt(s, 0);
      }
    }
  }

  lemma SwapFlags(s: State, giveUp: bool)
    requires Inv(s) && s.reader.Replace? && s.next[s.reader.p] == Link(s.reader.v, Head)
    ensures var t := ReaderStep(s, giveUp); AllPages(t) && 2 <= |t.ring| && Flags(t)
  {
    ReplaceFinds(s);
  }

  lemma SwapMembers(s: State, giveUp: bool)
    requires Inv(s) && s.reader.Replace? && s.next[s.reader.p] == Link(s.reader.v, Head)
    ensures var t := ReaderStep(s, giveUp);
            forall x :: x in t.ring <==> (x in s.ring && x != s.reader.h) || x == s.readerPage
  {
    ReplaceFinds(s);
    var t := ReaderStep(s, giveUp);
    forall x
      ensures x in t.ring <==> (x in s.ring && x != s.reader.h) || x == s.readerPage
    {
      if x in s.ring && x != s.reader.h {
        var k :| 0 <= k < |s.ring| && s.ring[k] == x;
        assert t.ring[k - 1] == x;
      }
      if x == s.readerPage { assert t.ring[|t.ring| - 1] == x; }
    }
  }

  // Where the pages of the ring are after a swap.
  lemma SwapPositions(s: State, giveUp: bool)
    requires Inv(s) && s.reader.Replace? && s.next[s.reader.p] == Link(s.reader.v, Head)
    ensures var t := ReaderStep(s, giveUp);
            && AllPages(t) && |t.ring| == |s.ring|
            && (forall i | 0 <= i < |s.ring| - 1 :: t.ring[i] == s.ring[i + 1])
            && t.ring[|s.ring| - 1] == s.readerPage && Off(t) == s.ring[0]
            && (forall x: nat :: x != s.ring[|s.ring| - 1] ==> t.next[x] == s.next[x])
  {
    ReplaceFinds(s);
  }

  lemma SwapLocated(s: State, giveUp: bool)
    requires Inv(s) && s.reader.Replace? && s.next[s.reader.p] == Link(s.reader.v, Head)
    ensures var t := ReaderStep(s, giveUp); AllPages(t) && Located(t)
  {
    ReplaceFinds(s);
    SwapMembers(s, giveUp);
  }

  lemma SwapBehind(s: State, giveUp: bool)
    requires Inv(s) && s.reader.Replace? && s.next[s.reader.p] == Link(s.reader.v, Head) && Behind(s)
    ensures Behind(ReaderStep(s, giveUp))
  {
    SwapPositions(s, giveUp);
  }

  lemma SwapOvertaken(s: State, giveUp: bool, nx: nat)
    requires Inv(s) && s.reader.Replace? && s.next[s.reader.p] == Link(s.reader.v, Head)
    requires s.tailPage != Off(s) && Overtaken(s, nx)
    ensures var t := ReaderStep(s, giveUp); 2 <= |t.ring| && Overtaken(t, nx)
  {
    SwapPositions(s, giveUp);
    var t, n := ReaderStep(s, giveUp), |s.ring|;
    if i :| 0 <= i < n - 2 && s.tailPage == s.ring[i] && nx == s.ring[i + 2] {
      if i > 0 {
        assert 0 <= i - 1 < n - 2 && t.tailPage == t.ring[i - 1] && nx == t.ring[i - 1 + 2];
      }
    } else if s.tailPage == s.ring[n - 2] && nx == Off(s) && n > 2 {
      assert 0 <= n - 3 < n - 2 && t.tailPage == t.ring[n - 3] && nx == t.ring[n - 3 + 2];
    }
  }

  // The link from the tail page stays if it is not the one the swap goes through.
  lemma SwapAdjacent(s: State, giveUp: bool)
    requires Inv(s) && s.reader.Replace? && s.next[s.reader.p] == Link(s.reader.v, Head)
    requires s.tailPage in s.ring && s.next[s.tailPage].flag != Head
    ensures var t := ReaderStep(s, giveUp);
            AllPages(t) && t.next[s.tailPage] == s.next[s.tailPage] && s.next[s.tailPage].to in t.ring
  {
    ReplaceFinds(s);
    SwapMembers(s, giveUp);
    var i := RingNext(s, s.tailPage);
  }

  lemma SwapKnows(s: State, giveUp: bool)
    requires Inv(s) && s.reader.Replace? && s.next[s.reader.p] == Link(s.reader.v, Head)
    ensures var t := ReaderStep(s, giveUp); AllPages(t) && 2 <= |t.ring| && Knows(t)
  {
    ReplaceFinds(s);
    SwapPositions(s, giveUp);
    SwapMembers(s, giveUp);
    match s.writer
    case TestHead(nx) => if Overtaken(s, nx) { SwapOvertaken(s, giveUp, nx); } else { SwapAdjacent(s, giveUp); }
    case ReaderTestPrev(nx) => SwapOvertaken(s, giveUp, nx);
    case ReaderTestNext(nx, _) => SwapOvertaken(s, giveUp, nx);
    case TestReader(nx) => SwapOvertaken(s, giveUp, nx);
    case SetUpdate(nx) => SwapOvertaken(s, giveUp, nx);
    case SetNormal(_) => SwapAdjacent(s, giveUp);
    case SwapTail(nx, onReader) => if onReader { SwapOvertaken(s, giveUp, nx); } else { SwapAdjacent(s, giveUp); }
    case _ =>
  }

  lemma SwapWriter(s: State, giveUp: bool)
    requires Inv(s) && s.reader.Replace? && s.next[s.reader.p] == Link(s.reader.v, Head)
    ensures var t := ReaderStep(s, giveUp); AllPages(t) && 2 <= |t.ring| && WriterOk(t)
  {
    SwapLocated(s, giveUp);
    SwapKnows(s, giveUp);
    if !Committing(s.writer) { SwapBehind(s, giveUp); }
  }

  lemma ReaderKeeps(s: State, giveUp: bool)
    requires Inv(s)
    ensures Inv(ReaderStep(s, giveUp))
  {
    match s.reader
    case CopyNext(_) | CopyPrev(_) | SetHeadFlag(_) | LoadLink(_) | Take(_) => CopyStepKeeps(s, giveUp);
    case FixPrev(_) => FixPrevKeeps(s, giveUp);
    case IncHead(_) => IncHeadKeeps(s, giveUp);
    case Replace(h, p, v) =>
      if s.next[p] == Link(v, Head) {
        SwapCycle(s, giveUp);
        SwapFlags(s, giveUp);
        SwapMembers(s, giveUp);
        SwapWriter(s, giveUp);
        ReplaceFinds(s);
      } else {
        ReplaceFailKeeps(s, giveUp);
      }
    case _ => ScanStepKeeps(s, giveUp);
  }

  /** Every step keeps the invariant, except when a writer that was misled goes on to the next page. */
  lemma StepKeeps(s: State, c: Choice)
    requires Inv(s) && !Misled(s, c)
    ensures Inv(Step(s, c))
  {
    match c
    case Write(stop) => WriterKeeps(s, stop);
    case Read(giveUp) => ReaderKeeps(s, giveUp);
  }

  /// Runs

  // rb_allocate_cpu_buffer: the tail, the commit and the head are on the first page of the ring.
  ghost predicate Init(s: State) {
    && AllPages(s)
    && 2 <= |s.ring| && Distinct(s.ring) && s.readerPage !in s.ring
    && (forall i | 0 <= i < |s.ring| :: NextAt(s, i))
    && (forall i | 0 <= i < |s.ring| :: s.prev[Succ(s, i)] == s.ring[i])
    && (forall i | 0 <= i < |s.ring| - 1 :: s.next[s.ring[i]].flag == Normal)
    && s.next[s.ring[|s.ring| - 1]].flag == Head
    && s.tailPage == s.commitPage == s.headPage == s.ring[0]
    && s.writer == Idle && s.reader == Out
  }

  lemma InitOk(s: State)
    requires Init(s)
    ensures Inv(s)
  {
    forall i | 0 <= i < |s.ring|
      ensures PrevAt(s, i)
    {
      assert s.prev[Succ(s, i)] == s.ring[i];
    }
  }

  ghost function Exec(s: State, run: seq<Choice>): State
    requires Ready(s)
    decreases |run|
  {
    if run == [] then s else
      StepReady(s, run[0]);
      Exec(Step(s, run[0]), run[1..])
  }

  // No writer goes on after it was misled.
  ghost predicate NeverMisled(s: State, run: seq<Choice>)
    requires Ready(s)
    decreases |run|
  {
    run == [] || (
      StepReady(s, run[0]);
      !Misled(s, run[0]) && NeverMisled(Step(s, run[0]), run[1..]))
  }

  lemma {:induction false} RunKeeps(s: State, run: seq<Choice>)
    requires Inv(s) && NeverMisled(s, run)
    ensures Inv(Exec(s, run)) && SamePages(s, Exec(s, run))
    decreases |run|
  {
    if run != [] {
      var t := Step(s, run[0]);
      StepKeeps(s, run[0]);
      if run[0].Write? { WriterPages(s, run[0].stop); } else { ReaderPages(s, run[0].giveUp); }
      RunKeeps(t, run[1..]);
    }
  }

  /// Main results

  ghost predicate SamePages(s: State, t: State) {
    |t.ring| == |s.ring| && forall x :: OnSomePage(t, x) <==> OnSomePage(s, x)
  }

  lemma WriterTurns(s: State, stop: bool)
    requires Ready(s)
    ensures var t := WriterStep(s, stop); t.reader == s.reader && t.readerPage == s.readerPage && (t.ring == s.ring || t.ring == s.ring[1..] + [s.ring[0]])
  {
  }

  lemma TurnPages(s: State, t: State)
    requires 2 <= |s.ring| && Distinct(s.ring) && t.reader == s.reader && t.readerPage == s.readerPage
    requires t.ring == s.ring || t.ring == s.ring[1..] + [s.ring[0]]
    ensures SamePages(s, t)
  {
    if t.ring != s.ring { Rotated(s.ring, t.ring); }
  }

  lemma WriterPages(s: State, stop: bool)
    requires Inv(s)
    ensures SamePages(s, WriterStep(s, stop))
  {
    WriterTurns(s, stop);
    TurnPages(s, WriterStep(s, stop));
  }

  lemma ReaderPages(s: State, giveUp: bool)
    requires Inv(s)
    ensures SamePages(s, ReaderStep(s, giveUp))
  {
    if s.reader.Replace? && s.next[s.reader.p] == Link(s.reader.v, Head) {
      SwapPositions(s, giveUp);
      SwapMembers(s, giveUp);
      ReplaceFinds(s);
    } else {
      assert ReaderStep(s, giveUp).ring == s.ring && Off(ReaderStep(s, giveUp)) == Off(s);
    }
  }

  // The writer is between its UPDATE and the matching NORMAL.
  predicate HandingOver(w: WriterPc) {
    Handing(w) || w.SetNormal?
  }

  // The pages `all` except the one outside, in the order of their links.
  ghost predicate Links(s: State, all: seq<nat>, order: seq<nat>) {
    && AllPages(s) && |order| + 1 == |all| && Distinct(order)
    && (forall x :: x in order <==> x in all && x != Off(s))
    && (forall i | 0 <= i < |order| :: s.next[order[i]].to == order[if i + 1 < |order| then i + 1 else 0])
  }

  // The pages of the ring that the reader or a writer may find flagged.
  ghost predicate Flagged(s: State, all: seq<nat>, x: nat, flag: Flag)
    requires AllPages(s)
  {
    x in all && x != Off(s) && s.next[x].flag == flag
  }

  /** The pages `all` except one outside form a single cycle.  At most one of its links is HEAD and at least
      one is flagged; outside a hand-over exactly one is HEAD and none is UPDATE. */
  ghost predicate FlaggedCycle(s: State, all: seq<nat>) {
    && AllPages(s) && (exists order :: Links(s, all, order))
    && (forall x, y | Flagged(s, all, x, Head) && Flagged(s, all, y, Head) :: x == y)
    && (exists x :: Flagged(s, all, x, Head) || Flagged(s, all, x, Update))
    && (!HandingOver(s.writer) ==> exists x :: Flagged(s, all, x, Head))
    && (!HandingOver(s.writer) ==> forall x :: !Flagged(s, all, x, Update))
  }

  // The pages of a buffer.
  function Roster(s: State): seq<nat> {
    s.ring + [s.readerPage]
  }

  lemma InvFlags(s: State, all: seq<nat>, x: nat)
    requires Inv(s) && (forall y :: y in all <==> OnSomePage(s, y)) && x in all && x != Off(s)
    ensures s.next[x].flag == Head ==> x == s.ring[|s.ring| - 1]
    ensures !HandingOver(s.writer) ==> s.next[x].flag != Update
  {
    var k :| 0 <= k < |s.ring| && s.ring[k] == x;
  }

  lemma InvFlagged(s: State, all: seq<nat>)
    requires Inv(s) && |all| == |s.ring| + 1 && (forall x :: x in all <==> OnSomePage(s, x))
    ensures FlaggedCycle(s, all)
  {
    var last := s.ring[|s.ring| - 1];
    forall i | 0 <= i < |s.ring| ensures s.next[s.ring[i]].to == s.ring[if i + 1 < |s.ring| then i + 1 else 0] {
      assert NextAt(s, i);
    }
    assert Links(s, all, s.ring);
    assert Flagged(s, all, last, if Handing(s.writer) then Update else Head);
    forall x | x in all && x != Off(s)
      ensures s.next[x].flag == Head ==> x == last
      ensures !HandingOver(s.writer) ==> s.next[x].flag != Update
    {
      InvFlags(s, all, x);
    }
  }

  /** In every run in which no misled writer goes on, the pages of the buffer stay a flagged cycle. */
  lemma RingStaysFlaggedCycle(s: State, run: seq<Choice>)
    requires Init(s) && NeverMisled(s, run)
    ensures FlaggedCycle(Exec(s, run), Roster(s))
  {
    InitOk(s);
    RunKeeps(s, run);
    InvFlagged(Exec(s, run), Roster(s));
  }

  /** The reader only ever takes the page behind the HEAD link: its spare page then sits at that place
      of the cycle, the next page is the new head page, and every other link is as before. */
  lemma ReaderTakesHeadPage(s: State, giveUp: bool)
    requires Inv(s) && Off(ReaderStep(s, giveUp)) != Off(s)
    ensures var t, h := ReaderStep(s, giveUp), Off(ReaderStep(s, giveUp));
            && (exists p :: p in s.ring && s.next[p] == Link(h, Head) && AllPages(t) && t.next[p] == Link(Off(s), Normal)
                  && forall x: nat | x != p :: t.next[x] == s.next[x])
            && t.next[Off(s)] == Link(s.next[h].to, Head)
            && !Handing(s.writer)
  {
    assert s.reader.Replace? && s.next[s.reader.p] == Link(s.reader.v, Head);
    ReplaceFinds(s);
    assert s.reader.p in s.ring;
  }

  /** When the writer moves on without finding its commit page outside the ring, it enters a ring page that
      directly follows its tail and is not the head page, unless the tail page is with the reader. */
  lemma WriterEntersPushedPage(s: State, stop: bool)
    requires Inv(s) && s.writer.SwapTail? && !s.writer.onReader
    ensures var nx := WriterStep(s, stop).tailPage;
            && nx in s.ring && s.next[s.tailPage].to == nx
            && (s.tailPage in s.ring ==> nx != s.ring[0])
  {
    if s.tailPage in s.ring { var i := RingNext(s, s.tailPage); }
  }

  /** The hand-over itself never trips a warning. */
  lemma HandOverNeverWarns(s: State, stop: bool)
    requires Inv(s) && !s.writer.Warned?
    ensures WriterStep(s, stop).writer != Warned(true)
  {
    assert NextAt(s, 0);
  }

  lemma {:induction false} ExecExtend(s: State, run: seq<Choice>, c: Choice)
    requires Ready(s)
    ensures Ready(Exec(s, run)) && Exec(s, run + [c]) == Step(Exec(s, run), c)
    decreases |run|
  {
    StepReady(s, if run == [] then c else run[0]);
    if run == [] {
      assert run + [c] == [c] && [c][1..] == [];
    } else {
      ExecExtend(Step(s, run[0]), run[1..], c);
      assert (run + [c])[1..] == run[1..] + [c];
    }
  }
}
