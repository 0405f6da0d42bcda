/**
 Commit publication of the per-CPU trace ring buffer when writers nest.

 On one CPU a writer may be interrupted between any two of its atomic operations by another
 writer, which runs to completion before the first one continues.  The machine below keeps the
 stack of interrupted writers (`frames`, innermost last); only the innermost one runs, and every
 load, store, add or compare-and-exchange of the reserve and commit paths is one step.

 Pages are numbered in the order in which the tail reaches them, so page `p + nrPages` is page `p`
 seen one lap later, with whatever counters it then holds.  `WindowFits` shows that the pages a
 run may touch never span a full lap, so this numbering loses nothing.

 While the commit page is the reader's page it is outside the ring, and the tail may then get
 `nrPages` pages ahead of it, one more than the test against the commit page allows here.  The
 theorems hold for every `nrPages`, so that case is a run with `nrPages` one larger.  The count of
 updaters shares a word with the 20 bits of the write index and has 12 bits on a 32 bit machine;
 here it has no bound.
 */
module RingCommit {
  import opened RingSizes

  type EventLength = l: nat | RB_EVNT_MIN_SIZE <= l witness RB_EVNT_MIN_SIZE

  // `write` and `updaters` are the two halves of the page's write word: the index of the next
  // write, and the count of writers that tried to reset it.
  datatype Page = Page(write: nat, updaters: nat, commit: nat)

  // Where a writer is inside rb_move_tail.
  datatype MovePhase = AskCommitPage | BumpNext | CompareTail | ZeroWrite | ZeroCommit | SwapTail
                     | ResetTail(again: bool)

  // Where a writer is inside rb_set_commit_to_write.
  datatype PublishPhase = ComparePages | LoadFull | StoreFull | Advance
                        | CompareIndex | LoadIndex | StoreIndex | RecheckPages

  datatype Pc =
    | Start                                   // about to increment `committing`
    | CountCommits                            // about to increment `commits`
    | ReadTail
    | AddWrite(tp: nat)
    | Moving(move: MovePhase, tp: nat, tail: nat, was: Page)
    | Reserved(page: nat, index: nat)         // the caller fills the event
    | ReadCommits
    | ReadCommitting(seen: nat)
    | Publishing(publish: PublishPhase, seen: nat, w: nat)
    | Decrement(seen: nat, published: bool)
    | CheckCommits(seen: nat)
    | CheckCommitting
    | Reincrement

  datatype Frame = Frame(len: EventLength, pc: Pc)

  datatype State = State(
    nrPages: nat,
    committing: nat,
    commits: nat,
    commitPage: nat,
    tailPage: nat,
    pages: imap<nat, Page>,
    frames: seq<Frame>)

  // What the run does next: an interrupt starts a writer, or the innermost writer takes a step.
  // `env` stands for what this machine does not hold: the head page test of rb_move_tail (go on,
  // retry, or drop the event) and the cut-off after 1000 attempts (`Drop` when reading the tail).
  datatype Env = Proceed | Retry | Drop
  datatype Choice = Interrupt(len: EventLength) | Run(env: Env)

  function Top(s: State): Frame
    requires s.frames != []
  {
    s.frames[|s.frames| - 1]
  }

  function Goto(s: State, pc: Pc): State
    requires s.frames != []
  {
    s.(frames := s.frames[|s.frames| - 1 := Frame(Top(s).len, pc)])
  }

  function Return(s: State): State
    requires s.frames != []
  {
    s.(frames := s.frames[..|s.frames| - 1])
  }

  function SetPage(s: State, p: nat, page: Page): State {
    s.(pages := s.pages[p := page])
  }

  ghost predicate AllPages(s: State) {
    forall p: nat :: p in s.pages
  }

  // What rb_reset_tail takes back from a page's write index: all of a failed reservation when the
  // page has no room left for an event, else all but what padding now fills.
  function Excess(tail: nat, len: nat): int {
    if BUF_PAGE_SIZE - RB_EVNT_MIN_SIZE < tail then len else tail + len - BUF_PAGE_SIZE
  }

  // What the next operation of rb_move_tail does to the pages and to the tail pointer ...
  ghost function MoveEffect(s: State): State
    requires AllPages(s) && s.frames != [] && Top(s).pc.Moving?
  {
    var Frame(len, Moving(phase, tp, tail, was)) := Top(s);
    var next := s.pages[tp + 1];
    match phase
    case BumpNext => SetPage(s, tp + 1, next.(updaters := next.updaters + 1))
    case ZeroWrite =>
      if next.write == was.write && next.updaters == was.updaters then SetPage(s, tp + 1, next.(write := 0)) else s
    case ZeroCommit => SetPage(s, tp + 1, next.(commit := 0))
    case SwapTail => if s.tailPage == tp then s.(tailPage := tp + 1) else s
    case ResetTail(_) =>
      var page := s.pages[tp];
      var excess := Excess(tail, len);
      if 0 <= page.write - excess then SetPage(s, tp, page.(write := page.write - excess)) else s
    case AskCommitPage | CompareTail => s
  }

  // ... and where it continues.
  ghost function AfterMove(s: State, env: Env): Pc
    requires AllPages(s) && s.frames != [] && Top(s).pc.Moving?
  {
    var Moving(phase, tp, tail, was) := Top(s).pc;
    match phase
    case AskCommitPage =>
      // The next page is the commit page exactly when a full lap separates the two.
      if tp + 1 - s.commitPage == s.nrPages || env.Drop? then Moving(ResetTail(false), tp, tail, was)
      else if env.Retry? then Moving(ResetTail(true), tp, tail, was)
      else Moving(BumpNext, tp, tail, was)
    case BumpNext => Moving(CompareTail, tp, tail, s.pages[tp + 1].(updaters := s.pages[tp + 1].updaters + 1))
    case CompareTail => Moving(if tp == s.tailPage then ZeroWrite else ResetTail(true), tp, tail, was)
    case ZeroWrite => Moving(ZeroCommit, tp, tail, was)
    case ZeroCommit => Moving(SwapTail, tp, tail, was)
    case SwapTail => Moving(ResetTail(true), tp, tail, was)
    case ResetTail(again) => if again then ReadTail else ReadCommits
  }

  ghost function MoveStep(s: State, env: Env): State
    requires AllPages(s) && s.frames != [] && Top(s).pc.Moving?
  {
    Goto(MoveEffect(s), AfterMove(s, env))
  }

  ghost function PublishStep(s: State): State
    requires AllPages(s) && s.frames != [] && Top(s).pc.Publishing?
  {
    var Publishing(phase, seen, w) := Top(s).pc;
    var page := s.pages[s.commitPage];
    match phase
    case ComparePages =>
      Goto(s, Publishing(if s.commitPage != s.tailPage then LoadFull else CompareIndex, seen, w))
    case LoadFull => Goto(s, Publishing(StoreFull, seen, page.write))
    case StoreFull =>
      Goto(SetPage(s, s.commitPage, page.(commit := w)), Publishing(Advance, seen, w))
    case Advance => Goto(s.(commitPage := s.commitPage + 1), Publishing(ComparePages, seen, w))
    case CompareIndex =>
      Goto(s, Publishing(if page.commit != page.write then LoadIndex else RecheckPages, seen, w))
    case LoadIndex => Goto(s, Publishing(StoreIndex, seen, page.write))
    case StoreIndex =>
      Goto(SetPage(s, s.commitPage, page.(commit := w)), Publishing(CompareIndex, seen, w))
    case RecheckPages =>
      if s.commitPage != s.tailPage then Goto(s, Publishing(ComparePages, seen, w))
      else Goto(s, Decrement(seen, true))
  }

  ghost function WriterStep(s: State, env: Env): State
    requires AllPages(s) && s.frames != []
  {
    match Top(s).pc
    case Start => Goto(s.(committing := s.committing + 1), CountCommits)
    case CountCommits => Goto(s.(commits := s.commits + 1), ReadTail)
    case ReadTail => Goto(s, if env.Drop? then ReadCommits else AddWrite(s.tailPage))
    case AddWrite(tp) =>
      var page := s.pages[tp];
      var write := page.write + Top(s).len;
      var s1 := SetPage(s, tp, page.(write := write));
      if write > BUF_PAGE_SIZE then Goto(s1, Moving(AskCommitPage, tp, page.write, page))
      else Goto(s1, Reserved(tp, page.write))
    case Moving(_, _, _, _) => MoveStep(s, env)
    case Reserved(_, _) => Goto(s, ReadCommits)
    case ReadCommits => Goto(s, ReadCommitting(s.commits))
    case ReadCommitting(seen) =>
      if s.committing == 1 then Goto(s, Publishing(ComparePages, seen, 0)) else Goto(s, Decrement(seen, false))
    case Publishing(_, _, _) => PublishStep(s)
    case Decrement(seen, _) =>
      var s1 := if 0 < s.committing then s.(committing := s.committing - 1) else s;
      Goto(s1, CheckCommits(seen))
    case CheckCommits(seen) =>
      if s.commits != seen then Goto(s, CheckCommitting) else Return(s)
    case CheckCommitting =>
      if s.committing == 0 then Goto(s, Reincrement) else Return(s)
    case Reincrement => Goto(s.(committing := s.committing + 1), ReadCommits)
  }

  ghost function Step(s: State, c: Choice): State
    requires AllPages(s)
  {
    match c
    case Interrupt(len) => s.(frames := s.frames + [Frame(len, Start)])
    case Run(env) => if s.frames == [] then s else WriterStep(s, env)
  }

  /// The invariant

  // Between its increment and its decrement of `committing`.
  predicate Counted(pc: Pc) {
    !(pc.Start? || pc.CheckCommits? || pc.CheckCommitting? || pc.Reincrement?)
  }

  // Past its increment of `commits`.
  predicate Bumped(pc: Pc) {
    !pc.Start? && !pc.CountCommits?
  }

  function NrCounted(frames: seq<Frame>): nat {
    if frames == [] then 0
    else NrCounted(frames[..|frames| - 1]) + (if Counted(frames[|frames| - 1].pc) then 1 else 0)
  }

  predicate HasSeen(pc: Pc) {
    pc.ReadCommitting? || pc.Publishing? || pc.Decrement? || pc.CheckCommits?
  }

  // The committed position has caught up with the written one.
  ghost predicate Published(s: State)
    requires AllPages(s)
  {
    s.commitPage == s.tailPage && s.pages[s.commitPage].commit == s.pages[s.tailPage].write
  }

  // The main safety claim for one writer: its unfinished reservation lies beyond what is committed.
  ghost predicate NotCovered(s: State, pc: Pc)
    requires AllPages(s)
  {
    pc.Reserved? ==>
      && s.commitPage <= pc.page <= s.tailPage
      && (pc.page == s.commitPage ==> s.pages[pc.page].commit <= pc.index)
  }

  predicate PastBump(m: MovePhase) {
    m.CompareTail? || m.ZeroWrite? || m.ZeroCommit? || m.SwapTail?
  }

  ghost predicate ShapeOk(s: State) {
    && AllPages(s)
    && 2 <= s.nrPages
    && s.commitPage <= s.tailPage < s.commitPage + s.nrPages
    && s.pages[s.commitPage].commit <= s.pages[s.commitPage].write
    && (forall q: nat :: s.commitPage < q <= s.tailPage ==> s.pages[q].commit == 0)
    && s.committing == NrCounted(s.frames)
  }

  ghost predicate MovingOk(s: State, f: Frame)
    requires AllPages(s) && f.pc.Moving?
  {
    var Moving(phase, tp, tail, was) := f.pc;
    && s.commitPage <= tp <= s.tailPage
    && tail + f.len <= s.pages[tp].write
    && BUF_PAGE_SIZE < tail + f.len
    && (tp == s.commitPage ==> s.pages[tp].commit <= tail)
    && (phase.BumpNext? || PastBump(phase) ==> tp + 1 < s.commitPage + s.nrPages)
    && (phase.ZeroWrite? ==> s.tailPage == tp || was.updaters < s.pages[tp + 1].updaters)
    && (PastBump(phase) ==> was.updaters <= s.pages[tp + 1].updaters)
    && (phase.SwapTail? && s.tailPage == tp ==> s.pages[tp + 1].commit == 0)
  }

  ghost predicate PublishingOk(s: State, i: nat)
    requires AllPages(s) && i < |s.frames| && s.frames[i].pc.Publishing?
  {
    var Publishing(phase, seen, w) := s.frames[i].pc;
    && (forall k | 0 <= k < i :: !Counted(s.frames[k].pc))
    && (phase.LoadFull? || phase.StoreFull? || phase.Advance? ==> s.commitPage < s.tailPage)
    && (phase.StoreFull? || phase.StoreIndex? ==> s.pages[s.commitPage].commit <= w <= s.pages[s.commitPage].write)
    && (phase.RecheckPages? ==> (s.commitPage == s.tailPage ==> Published(s)) || seen < s.commits)
  }

  ghost predicate FrameOk(s: State, i: nat)
    requires AllPages(s) && i < |s.frames|
  {
    var pc := s.frames[i].pc;
    && NotCovered(s, pc)
    && (pc.AddWrite? ==> s.commitPage <= pc.tp <= s.tailPage)
    && (pc.Moving? ==> MovingOk(s, s.frames[i]))
    && (HasSeen(pc) ==> pc.seen <= s.commits)
    && (pc.Publishing? ==> PublishingOk(s, i))
    && (pc.Decrement? && pc.published ==>
          && (forall k | 0 <= k < i :: !Counted(s.frames[k].pc))
          && (Published(s) || pc.seen < s.commits))
    && (pc.Decrement? && !pc.published ==> exists k :: 0 <= k < i && Counted(s.frames[k].pc))
  }

  // What a writer guarantees to the writers it interrupted.
  ghost predicate PairOk(s: State, i: nat, j: nat)
    requires AllPages(s) && i < j < |s.frames|
  {
    var a, b := s.frames[i], s.frames[j];
    && (HasSeen(a.pc) && Bumped(b.pc) ==> a.pc.seen < s.commits)
    && (a.pc.Moving? && b.pc.Moving? && a.pc.tp == b.pc.tp ==> a.pc.tail + a.len <= b.pc.tail)
    && (a.pc.Moving? && b.pc.AddWrite? ==> a.pc.tp <= b.pc.tp)
    && (a.pc.Moving? && b.pc.Moving? ==> a.pc.tp <= b.pc.tp)
    && (a.pc.Moving? && PastBump(a.pc.move) && b.pc.Moving? && PastBump(b.pc.move) && a.pc.tp == b.pc.tp ==>
          a.pc.was.updaters < s.pages[a.pc.tp + 1].updaters)
    && (a.pc.Publishing? && (a.pc.publish.StoreFull? || a.pc.publish.StoreIndex?) && b.pc.Moving? && b.pc.tp == s.commitPage ==>
          a.pc.w <= b.pc.tail)
  }

  ghost predicate TopPairOk(s: State, i: nat)
    requires AllPages(s) && i < |s.frames| - 1
  {
    PairOk(s, i, |s.frames| - 1)
  }

  // No interrupting writer is itself between its bump of the next page and its move of the tail.
  ghost predicate Undisturbed(s: State, i: nat)
    requires i < |s.frames| && s.frames[i].pc.Moving?
  {
    forall j | i < j < |s.frames| && s.frames[j].pc.Moving? && PastBump(s.frames[j].pc.move) ::
      s.frames[j].pc.tp != s.frames[i].pc.tp
  }

  // The page the tail is about to move to is being, or has been, emptied.
  ghost predicate EmptiedOk(s: State, i: nat)
    requires AllPages(s) && i < |s.frames|
  {
    s.frames[i].pc.Moving? && s.frames[i].pc.tp == s.tailPage && Undisturbed(s, i) ==>
      var Moving(phase, tp, _, was) := s.frames[i].pc;
      && (phase.CompareTail? || phase.ZeroWrite? ==>
            s.pages[tp + 1].write == was.write && s.pages[tp + 1].updaters == was.updaters)
      && (phase.ZeroCommit? || phase.SwapTail? ==> s.pages[tp + 1].write == 0)
  }

  // Somebody who already left the counted region will notice the new commits and publish them.
  ghost predicate WillRepublish(s: State, pc: Pc) {
    (pc.CheckCommits? && pc.seen < s.commits) || pc.CheckCommitting? || pc.Reincrement?
  }

  ghost predicate Unattended(s: State) {
    forall i | 0 <= i < |s.frames| :: !Counted(s.frames[i].pc)
  }

  ghost predicate Responsible(s: State)
    requires AllPages(s)
  {
    Unattended(s) ==> Published(s) || exists i :: 0 <= i < |s.frames| && WillRepublish(s, s.frames[i].pc)
  }

  ghost predicate Inv(s: State) {
    && ShapeOk(s)
    && (forall i | 0 <= i < |s.frames| :: FrameOk(s, i))
    && (forall i, j | 0 <= i < j < |s.frames| :: PairOk(s, i, j))
    && (forall i | 0 <= i < |s.frames| :: EmptiedOk(s, i))
    && Responsible(s)
  }

  lemma NoneCounted(frames: seq<Frame>)
    ensures NrCounted(frames) == 0 <==> forall i | 0 <= i < |frames| :: !Counted(frames[i].pc)
  {
    if frames != [] {
      NoneCounted(frames[..|frames| - 1]);
    }
  }

  // Facts about a state whose innermost frame changed from `f` to `g`.
  lemma CountTop(frames: seq<Frame>, g: Frame)
    requires frames != []
    ensures NrCounted(frames[|frames| - 1 := g])
         == NrCounted(frames) - (if Counted(frames[|frames| - 1].pc) then 1 else 0) + (if Counted(g.pc) then 1 else 0)
  {
    assert frames[|frames| - 1 := g][..|frames| - 1] == frames[..|frames| - 1];
  }

  lemma InterruptKeeps(s: State, len: EventLength)
    requires Inv(s)
    ensures Inv(Step(s, Interrupt(len)))
  {
    var t := Step(s, Interrupt(len));
    assert t.frames[..|s.frames|] == s.frames;
    forall i | 0 <= i < |t.frames|
      ensures FrameOk(t, i)
    {
      if i < |s.frames| {
        LowerFrameOk(s, t, i);
      }
    }
    forall i, j | 0 <= i < j < |t.frames|
      ensures PairOk(t, i, j)
    {
      if j < |s.frames| {
        assert PairOk(s, i, j);
      }
    }
    forall i | 0 <= i < |t.frames|
      ensures EmptiedOk(t, i)
    {
      if i < |s.frames| {
        EmptiedStays(s, t, i);
      }
    }
    if Unattended(t) {
      assert forall i | 0 <= i < |s.frames| :: !Counted(t.frames[i].pc);
      assert Unattended(s);
    }
  }

  // The writers that interrupt frame `i` in the middle of moving the tail are still there.
  lemma EmptiedStays(s: State, t: State, i: nat)
    requires AllPages(s) && AllPages(t) && i < |s.frames| && i < |t.frames|
    requires EmptiedOk(s, i) && t.frames[i] == s.frames[i]
    requires t.tailPage == s.tailPage && t.pages == s.pages
    requires forall k | i < k < |s.frames| && s.frames[k].pc.Moving? :: k < |t.frames| && t.frames[k] == s.frames[k]
    ensures EmptiedOk(t, i)
  {
    if s.frames[i].pc.Moving? && Undisturbed(t, i) {
      forall j | i < j < |s.frames| && s.frames[j].pc.Moving? && PastBump(s.frames[j].pc.move)
        ensures s.frames[j].pc.tp != s.frames[i].pc.tp
      {
        assert t.frames[j].pc.tp != t.frames[i].pc.tp;
      }
      assert Undisturbed(s, i);
    }
  }

  // `t` shares the first `i + 1` frames with `s`; each frame keeps its obligations as long as the
  // shared state moved in the ways listed.
  lemma LowerFrameOk(s: State, t: State, i: nat)
    requires AllPages(s) && AllPages(t)
    requires i < |s.frames| && i < |t.frames| && t.frames[..i + 1] == s.frames[..i + 1]
    requires FrameOk(s, i)
    requires t.nrPages == s.nrPages && t.commitPage == s.commitPage && t.tailPage == s.tailPage && t.pages == s.pages
    requires t.commits == s.commits || (t.commits == s.commits + 1)
    ensures FrameOk(t, i)
  {
    assert forall k | 0 <= k < i :: t.frames[k] == t.frames[..i + 1][k] == s.frames[..i + 1][k] == s.frames[k];
    assert t.frames[i] == t.frames[..i + 1][i] == s.frames[..i + 1][i] == s.frames[i];
  }

  // A step that moves only the innermost frame's program counter and the two counters.
  ghost predicate Quiet(s: State, t: State) {
    && s.frames != []
    && |t.frames| == |s.frames|
    && t.frames == s.frames[|s.frames| - 1 := Top(t)]
    && t.nrPages == s.nrPages && t.commitPage == s.commitPage && t.tailPage == s.tailPage && t.pages == s.pages
    && (t.commits == s.commits || t.commits == s.commits + 1)
  }

  lemma QuietKeeps(s: State, t: State)
    requires Inv(s) && Quiet(s, t)
    requires FrameOk(t, |s.frames| - 1)
    requires forall i | 0 <= i < |s.frames| - 1 :: TopPairOk(t, i)
    requires t.committing == NrCounted(t.frames)
    requires Responsible(t)
    requires !Top(s).pc.Moving? && !Top(t).pc.Moving?
    ensures Inv(t)
  {
    forall i | 0 <= i < |s.frames| - 1
      ensures FrameOk(t, i) && EmptiedOk(t, i)
    {
      assert t.frames[..i + 1] == s.frames[..i + 1];
      LowerFrameOk(s, t, i);
      EmptiedStays(s, t, i);
    }
    forall i, j | 0 <= i < j < |t.frames|
      ensures PairOk(t, i, j)
    {
      if j < |s.frames| - 1 {
        assert PairOk(s, i, j);
      } else {
        assert TopPairOk(t, i);
      }
    }
  }

  lemma EnterKeeps(s: State, env: Env)
    requires Inv(s) && s.frames != []
    requires Top(s).pc.Start? || Top(s).pc.CountCommits? || Top(s).pc.ReadTail? || Top(s).pc.Reserved? || Top(s).pc.ReadCommits?
    ensures Inv(WriterStep(s, env))
  {
    var t := WriterStep(s, env);
    var n := |s.frames| - 1;
    assert FrameOk(s, n);
    CountTop(s.frames, t.frames[n]);
    forall i | 0 <= i < n
      ensures TopPairOk(t, i)
    {
      assert PairOk(s, i, n);
      assert FrameOk(s, i);
    }
    assert Counted(t.frames[n].pc);
    QuietKeeps(s, t);
  }

  lemma LowerCounted(s: State)
    requires s.frames != []
    ensures NrCounted(s.frames) == (if Counted(Top(s).pc) then 1 else 0)
       <==> forall k | 0 <= k < |s.frames| - 1 :: !Counted(s.frames[k].pc)
  {
    var lower := s.frames[..|s.frames| - 1];
    NoneCounted(lower);
    assert forall k | 0 <= k < |lower| :: lower[k] == s.frames[k];
    if k :| 0 <= k < |lower| && Counted(s.frames[k].pc) {
      assert Counted(lower[k].pc);
    }
  }

  lemma QuietPairs(s: State, t: State)
    requires Inv(s) && Quiet(s, t)
    requires t.commits == s.commits
    requires !Top(t).pc.Moving? && !Top(t).pc.AddWrite?
    requires Bumped(Top(s).pc)
    ensures forall i | 0 <= i < |s.frames| - 1 :: TopPairOk(t, i)
  {
    forall i | 0 <= i < |s.frames| - 1
      ensures TopPairOk(t, i)
    {
      assert PairOk(s, i, |s.frames| - 1);
    }
  }

  lemma ReadCommittingKeeps(s: State, env: Env)
    requires Inv(s) && s.frames != [] && Top(s).pc.ReadCommitting?
    ensures Inv(WriterStep(s, env))
  {
    var t := WriterStep(s, env);
    var n := |s.frames| - 1;
    assert FrameOk(s, n);
    CountTop(s.frames, t.frames[n]);
    LowerCounted(s);
    QuietPairs(s, t);
    assert Counted(t.frames[n].pc);
    QuietKeeps(s, t);
  }

  lemma DecrementKeeps(s: State, env: Env)
    requires Inv(s) && s.frames != [] && Top(s).pc.Decrement?
    ensures Inv(WriterStep(s, env))
  {
    var t := WriterStep(s, env);
    var n := |s.frames| - 1;
    assert FrameOk(s, n);
    CountTop(s.frames, t.frames[n]);
    QuietPairs(s, t);
    assert Responsible(t) by {
      if Top(s).pc.published {
        assert Published(t) || WillRepublish(t, t.frames[n].pc);
      } else {
        var k :| 0 <= k < n && Counted(s.frames[k].pc);
        assert Counted(t.frames[k].pc);
      }
    }
    QuietKeeps(s, t);
  }

  lemma ReincrementKeeps(s: State, env: Env)
    requires Inv(s) && s.frames != [] && (Top(s).pc.Reincrement? || (Top(s).pc.CheckCommitting? && s.committing == 0))
    ensures Inv(WriterStep(s, env))
  {
    var t := WriterStep(s, env);
    var n := |s.frames| - 1;
    CountTop(s.frames, t.frames[n]);
    QuietPairs(s, t);
    assert Counted(t.frames[n].pc) || WillRepublish(t, t.frames[n].pc);
    QuietKeeps(s, t);
  }

  lemma CheckCommitsKeeps(s: State, env: Env)
    requires Inv(s) && s.frames != [] && Top(s).pc.CheckCommits? && s.commits != Top(s).pc.seen
    ensures Inv(WriterStep(s, env))
  {
    var t := WriterStep(s, env);
    var n := |s.frames| - 1;
    CountTop(s.frames, t.frames[n]);
    QuietPairs(s, t);
    assert WillRepublish(t, t.frames[n].pc);
    QuietKeeps(s, t);
  }

  lemma ReturnKeeps(s: State, env: Env)
    requires Inv(s) && s.frames != []
    requires || (Top(s).pc.CheckCommits? && s.commits == Top(s).pc.seen)
             || (Top(s).pc.CheckCommitting? && s.committing != 0)
    ensures Inv(WriterStep(s, env))
  {
    var t := WriterStep(s, env);
    var n := |s.frames| - 1;
    assert forall i | 0 <= i < n :: t.frames[i] == s.frames[i];
    forall i | 0 <= i < n
      ensures FrameOk(t, i) && EmptiedOk(t, i)
    {
      assert t.frames[..i + 1] == s.frames[..i + 1];
      LowerFrameOk(s, t, i);
      EmptiedStays(s, t, i);
    }
    forall i, j | 0 <= i < j < n
      ensures PairOk(t, i, j)
    {
      assert PairOk(s, i, j);
    }
    ReturnResponsible(s, env);
  }

  lemma ReturnResponsible(s: State, env: Env)
    requires Inv(s) && s.frames != []
    requires || (Top(s).pc.CheckCommits? && s.commits == Top(s).pc.seen)
             || (Top(s).pc.CheckCommitting? && s.committing != 0)
    ensures var t := WriterStep(s, env); AllPages(t) && Responsible(t)
  {
    var t, n := WriterStep(s, env), |s.frames| - 1;
    assert forall i | 0 <= i < n :: t.frames[i] == s.frames[i];
    if Unattended(t) {
      LowerCounted(s);
      assert forall i | 0 <= i < n :: !Counted(t.frames[i].pc);
      assert Unattended(s);
      if !Published(s) {
        var i :| 0 <= i < |s.frames| && WillRepublish(s, s.frames[i].pc);
        assert i < n;
        assert WillRepublish(t, t.frames[i].pc);
      }
    }
  }

  /// Steps that touch the pages

  // The innermost writer, already counted, changes the pages or the tail below a frozen commit page.
  ghost predicate Touches(s: State, t: State) {
    && AllPages(t)
    && s.frames != []
    && |t.frames| == |s.frames|
    && t.frames == s.frames[|s.frames| - 1 := Top(t)]
    && t.nrPages == s.nrPages && t.commitPage == s.commitPage
    && t.commits == s.commits && t.committing == s.committing
    && Counted(Top(s).pc) && Counted(Top(t).pc) && Bumped(Top(s).pc)
  }

  lemma TouchKeeps(s: State, t: State)
    requires Inv(s) && Touches(s, t)
    requires t.commitPage <= t.tailPage < t.commitPage + t.nrPages
    requires t.pages[t.commitPage].commit <= t.pages[t.commitPage].write
    requires forall q: nat :: t.commitPage < q <= t.tailPage ==> t.pages[q].commit == 0
    requires forall i | 0 <= i < |s.frames| :: FrameOk(t, i)
    requires forall i, j | 0 <= i < j < |s.frames| :: PairOk(t, i, j)
    requires forall i | 0 <= i < |s.frames| :: EmptiedOk(t, i)
    ensures Inv(t)
  {
    CountTop(s.frames, Top(t));
    assert Counted(t.frames[|t.frames| - 1].pc);
  }

  // A lower frame keeps its obligations while the pages change above the commit position.
  lemma TouchedFrameOk(s: State, t: State, i: nat)
    requires AllPages(s) && Touches(s, t) && i < |s.frames| - 1
    requires FrameOk(s, i) && PairOk(s, i, |s.frames| - 1)
    requires s.tailPage <= t.tailPage
    requires t.pages[t.commitPage].commit == s.pages[s.commitPage].commit
    requires s.frames[i].pc.Moving? ==> MovingOk(t, s.frames[i])
    requires s.frames[i].pc.Publishing? && (s.frames[i].pc.publish.StoreFull? || s.frames[i].pc.publish.StoreIndex?) ==>
               s.frames[i].pc.w <= t.pages[t.commitPage].write
    ensures FrameOk(t, i)
  {
    if s.frames[i].pc.Decrement? && !s.frames[i].pc.published {
      var k :| 0 <= k < i && Counted(s.frames[k].pc);
      assert Counted(t.frames[k].pc);
    }
  }

  ghost predicate TopReady(s: State) {
    s.frames != [] && ShapeOk(s) && FrameOk(s, |s.frames| - 1)
  }

  lemma AddWriteLower(s: State, env: Env, i: nat)
    requires TopReady(s) && Top(s).pc.AddWrite? && i < |s.frames| - 1
    requires FrameOk(s, i) && PairOk(s, i, |s.frames| - 1)
    ensures FrameOk(WriterStep(s, env), i)
  {
    TouchedFrameOk(s, WriterStep(s, env), i);
  }

  lemma AddWriteTop(s: State, env: Env)
    requires TopReady(s) && Top(s).pc.AddWrite?
    ensures var t := WriterStep(s, env);
            && Touches(s, t) && t.tailPage == s.tailPage
            && FrameOk(t, |s.frames| - 1)
            && t.pages[t.commitPage].commit <= t.pages[t.commitPage].write
            && forall q: nat :: t.pages[q].commit == s.pages[q].commit
  {
  }

  lemma AddWritePair(s: State, env: Env, i: nat, j: nat)
    requires TopReady(s) && Top(s).pc.AddWrite? && i < j < |s.frames|
    requires FrameOk(s, i) && PairOk(s, i, j)
    ensures var t := WriterStep(s, env); PairOk(t, i, j)
  {
  }

  lemma AddWritePairs(s: State, env: Env)
    requires Inv(s) && s.frames != [] && Top(s).pc.AddWrite?
    ensures var t := WriterStep(s, env); forall i, j | 0 <= i < j < |s.frames| :: PairOk(t, i, j)
  {
    var t := WriterStep(s, env);
    forall i, j | 0 <= i < j < |s.frames|
      ensures PairOk(t, i, j)
    {
      AddWritePair(s, env, i, j);
    }
  }

  lemma AddWriteEmptied(s: State, env: Env, i: nat)
    requires TopReady(s) && Top(s).pc.AddWrite? && i < |s.frames| && EmptiedOk(s, i)
    ensures EmptiedOk(WriterStep(s, env), i)
  {
    var t := WriterStep(s, env);
    if i < |s.frames| - 1 && s.frames[i].pc.Moving? && Undisturbed(t, i) {
      assert forall j | i < j < |s.frames| - 1 :: t.frames[j] == s.frames[j];
      assert Undisturbed(s, i);
    }
  }

  lemma AddWriteKeeps(s: State, env: Env)
    requires Inv(s) && s.frames != [] && Top(s).pc.AddWrite?
    ensures Inv(WriterStep(s, env))
  {
    forall i | 0 <= i < |s.frames|
      ensures FrameOk(WriterStep(s, env), i)
    {
      if i < |s.frames| - 1 { AddWriteLower(s, env, i); } else { AddWriteTop(s, env); }
    }
    AddWriteTop(s, env);
    AddWritePairs(s, env);
    forall i | 0 <= i < |s.frames|
      ensures EmptiedOk(WriterStep(s, env), i)
    {
      AddWriteEmptied(s, env, i);
    }
    TouchKeeps(s, WriterStep(s, env));
  }

  lemma MoveLowerMoving(s: State, env: Env, i: nat)
    requires TopReady(s) && Top(s).pc.Moving? && i < |s.frames| - 1
    requires s.frames[i].pc.Moving? && MovingOk(s, s.frames[i]) && PairOk(s, i, |s.frames| - 1)
    ensures AllPages(MoveStep(s, env)) && MovingOk(MoveStep(s, env), s.frames[i])
  {
  }

  lemma MoveTouches(s: State, env: Env)
    requires TopReady(s) && Top(s).pc.Moving?
    ensures var t := MoveStep(s, env); Touches(s, t) && s.tailPage <= t.tailPage
    ensures var t := MoveStep(s, env); t.pages[t.commitPage].commit == s.pages[s.commitPage].commit
    ensures MoveStep(s, env).pages[s.commitPage].write == s.pages[s.commitPage].write
         || (Top(s).pc.tp == s.commitPage && Top(s).pc.tail <= MoveStep(s, env).pages[s.commitPage].write)
  {
  }

  lemma MoveLower(s: State, env: Env, i: nat)
    requires TopReady(s) && Top(s).pc.Moving? && i < |s.frames| - 1
    requires FrameOk(s, i) && PairOk(s, i, |s.frames| - 1)
    ensures FrameOk(MoveStep(s, env), i)
  {
    MoveTouches(s, env);
    if s.frames[i].pc.Moving? {
      MoveLowerMoving(s, env, i);
    }
    TouchedFrameOk(s, MoveStep(s, env), i);
  }

  lemma MoveTopPair(s: State, env: Env, i: nat)
    requires TopReady(s) && Top(s).pc.Moving? && i < |s.frames| - 1
    requires FrameOk(s, i) && PairOk(s, i, |s.frames| - 1)
    ensures var t := MoveStep(s, env); PairOk(t, i, |s.frames| - 1)
  {
  }

  // Up to the test of the tail page nothing but the count of updaters has changed ...
  predicate Early(m: MovePhase) {
    m.AskCommitPage? || m.BumpNext? || m.CompareTail?
  }

  lemma MoveTopEarly(s: State, env: Env)
    requires TopReady(s) && Top(s).pc.Moving? && Early(Top(s).pc.move)
    ensures var t := MoveStep(s, env); FrameOk(t, |s.frames| - 1)
  {
  }

  // ... and then the next page is emptied and becomes the tail page.
  lemma MoveTopLate(s: State, env: Env)
    requires TopReady(s) && Top(s).pc.Moving? && !Early(Top(s).pc.move)
    ensures var t := MoveStep(s, env); FrameOk(t, |s.frames| - 1)
  {
  }

  lemma MoveTop(s: State, env: Env)
    requires TopReady(s) && Top(s).pc.Moving?
    ensures var t := MoveStep(s, env); FrameOk(t, |s.frames| - 1)
  {
    if Early(Top(s).pc.move) { MoveTopEarly(s, env); } else { MoveTopLate(s, env); }
  }

  lemma MovePair(s: State, env: Env, i: nat, j: nat)
    requires TopReady(s) && Top(s).pc.Moving? && i < j < |s.frames| - 1
    requires PairOk(s, i, j)
    ensures var t := MoveStep(s, env); PairOk(t, i, j)
  {
  }

  lemma MoveShape(s: State, env: Env)
    requires TopReady(s) && Top(s).pc.Moving?
    ensures
      var t := MoveStep(s, env);
      && AllPages(t)
      && t.commitPage <= t.tailPage < t.commitPage + t.nrPages
      && t.pages[t.commitPage].commit <= t.pages[t.commitPage].write
      && forall q: nat :: t.commitPage < q <= t.tailPage ==> t.pages[q].commit == 0
  {
  }

  lemma MoveFrames(s: State, env: Env)
    requires Inv(s) && s.frames != [] && Top(s).pc.Moving?
    ensures forall i | 0 <= i < |s.frames| :: FrameOk(MoveStep(s, env), i)
  {
    forall i | 0 <= i < |s.frames|
      ensures FrameOk(MoveStep(s, env), i)
    {
      if i < |s.frames| - 1 { MoveLower(s, env, i); } else { MoveTop(s, env); }
    }
  }

  lemma MovePairs(s: State, env: Env)
    requires Inv(s) && s.frames != [] && Top(s).pc.Moving?
    ensures var t := MoveStep(s, env); forall i, j | 0 <= i < j < |s.frames| :: PairOk(t, i, j)
  {
    var t := MoveStep(s, env);
    forall i, j | 0 <= i < j < |s.frames|
      ensures PairOk(t, i, j)
    {
      if j < |s.frames| - 1 { MovePair(s, env, i, j); } else { MoveTopPair(s, env, i); }
    }
  }

  lemma MoveTopEmptied(s: State, env: Env)
    requires TopReady(s) && Top(s).pc.Moving? && EmptiedOk(s, |s.frames| - 1)
    ensures AllPages(MoveStep(s, env)) && EmptiedOk(MoveStep(s, env), |s.frames| - 1)
  {
    assert Undisturbed(s, |s.frames| - 1);
  }

  lemma MoveLowerEmptied(s: State, env: Env, i: nat)
    requires TopReady(s) && Top(s).pc.Moving? && i < |s.frames| - 1
    requires EmptiedOk(s, i) && FrameOk(s, i) && TopPairOk(s, i)
    ensures AllPages(MoveStep(s, env)) && EmptiedOk(MoveStep(s, env), i)
  {
    var t, n := MoveStep(s, env), |s.frames| - 1;
    if s.frames[i].pc.Moving? && Undisturbed(t, i) && t.tailPage == s.frames[i].pc.tp {
      var top := t.frames[n];
      assert top.pc.Moving? || t.tailPage == s.tailPage;
      assert forall j | i < j < n :: t.frames[j] == s.frames[j];
      assert Undisturbed(s, i);
    }
  }

  lemma MoveKeeps(s: State, env: Env)
    requires Inv(s) && s.frames != [] && Top(s).pc.Moving?
    ensures Inv(MoveStep(s, env))
  {
    MoveFrames(s, env);
    MovePairs(s, env);
    MoveShape(s, env);
    forall i | 0 <= i < |s.frames|
      ensures EmptiedOk(MoveStep(s, env), i)
    {
      if i < |s.frames| - 1 {
        assert PairOk(s, i, |s.frames| - 1);
        MoveLowerEmptied(s, env, i);
      } else {
        MoveTopEmptied(s, env);
      }
    }
    TouchKeeps(s, MoveStep(s, env));
  }

  lemma PublishLower(s: State, i: nat)
    requires TopReady(s) && Top(s).pc.Publishing? && i < |s.frames| - 1
    requires FrameOk(s, i) && PairOk(s, i, |s.frames| - 1)
    ensures FrameOk(PublishStep(s), i)
  {
    assert !Counted(s.frames[i].pc);
  }

  lemma PublishTop(s: State)
    requires TopReady(s) && Top(s).pc.Publishing?
    ensures var t := PublishStep(s); FrameOk(t, |s.frames| - 1)
  {
  }

  lemma PublishShape(s: State)
    requires TopReady(s) && Top(s).pc.Publishing?
    ensures ShapeOk(PublishStep(s))
  {
    CountTop(s.frames, PublishStep(s).frames[|s.frames| - 1]);
  }

  lemma PublishPairs(s: State)
    requires Inv(s) && s.frames != [] && Top(s).pc.Publishing?
    ensures var t := PublishStep(s); forall i, j | 0 <= i < j < |s.frames| :: PairOk(t, i, j)
  {
    var t := PublishStep(s);
    assert FrameOk(s, |s.frames| - 1);
    forall i, j | 0 <= i < j < |s.frames|
      ensures PairOk(t, i, j)
    {
      assert PairOk(s, i, j);
      assert !Counted(s.frames[i].pc);
    }
  }

  lemma PublishEmptied(s: State, i: nat)
    requires AllPages(s) && s.frames != [] && Top(s).pc.Publishing? && i < |s.frames| && EmptiedOk(s, i)
    ensures AllPages(PublishStep(s)) && |PublishStep(s).frames| == |s.frames| && EmptiedOk(PublishStep(s), i)
  {
    var t, n := PublishStep(s), |s.frames| - 1;
    assert t.frames[n].pc.Publishing? || !t.frames[n].pc.Moving?;
    assert forall j | 0 <= j < n :: t.frames[j] == s.frames[j];
    if i < n && s.frames[i].pc.Moving? && Undisturbed(t, i) {
      assert Undisturbed(s, i);
    }
  }

  lemma PublishKeeps(s: State)
    requires Inv(s) && s.frames != [] && Top(s).pc.Publishing?
    ensures Inv(PublishStep(s))
  {
    var t := PublishStep(s);
    PublishTop(s);
    PublishShape(s);
    PublishPairs(s);
    forall i | 0 <= i < |s.frames|
      ensures FrameOk(t, i) && EmptiedOk(t, i)
    {
      PublishEmptied(s, i);
      if i < |s.frames| - 1 { PublishLower(s, i); }
    }
    assert Counted(t.frames[|s.frames| - 1].pc);
  }

  lemma StepKeeps(s: State, c: Choice)
    requires Inv(s)
    ensures Inv(Step(s, c))
  {
    match c
    case Interrupt(len) => InterruptKeeps(s, len);
    case Run(env) =>
      if s.frames != [] {
        match Top(s).pc
        case Start | CountCommits | ReadTail | Reserved(_, _) | ReadCommits => EnterKeeps(s, env);
        case AddWrite(_) => AddWriteKeeps(s, env);
        case Moving(_, _, _, _) => MoveKeeps(s, env);
        case ReadCommitting(_) => ReadCommittingKeeps(s, env);
        case Publishing(_, _, _) => PublishKeeps(s);
        case Decrement(_, _) => DecrementKeeps(s, env);
        case CheckCommits(seen) => if s.commits != seen { CheckCommitsKeeps(s, env); } else { ReturnKeeps(s, env); }
        case CheckCommitting => if s.committing == 0 { ReincrementKeeps(s, env); } else { ReturnKeeps(s, env); }
        case Reincrement => ReincrementKeeps(s, env);
      }
  }

  /// Runs

  // A buffer nobody has written to; the counters of the other pages are left over from any use.
  ghost predicate Init(s: State) {
    && AllPages(s) && 2 <= s.nrPages
    && s.committing == 0 && s.commits == 0 && s.frames == []
    && s.commitPage == s.tailPage == 0
    && s.pages[0].write == 0 && s.pages[0].commit == 0
  }

  ghost function Exec(s: State, run: seq<Choice>): State
    requires Inv(s)
    decreases |run|
  {
    if run == [] then s else
      StepKeeps(s, run[0]);
      Exec(Step(s, run[0]), run[1..])
  }

  lemma {:induction false} RunKeeps(s: State, run: seq<Choice>)
    requires Inv(s)
    ensures Inv(Exec(s, run))
    decreases |run|
  {
    if run != [] {
      StepKeeps(s, run[0]);
      RunKeeps(Step(s, run[0]), run[1..]);
    }
  }

  /// Reservations do not overlap and stay inside their page

  // What the failed reservations on page `p` still have to give back.
  function Owed(frames: seq<Frame>, p: nat): int {
    if frames == [] then 0
    else Owed(frames[..|frames| - 1], p) + OwedBy(frames[|frames| - 1], p)
  }

  function OwedBy(f: Frame, p: nat): int {
    if f.pc.Moving? && f.pc.tp == p then Excess(f.pc.tail, f.len) else 0
  }

  lemma OwedTop(frames: seq<Frame>, g: Frame, p: nat)
    requires frames != []
    ensures Owed(frames[|frames| - 1 := g], p) == Owed(frames, p) - OwedBy(frames[|frames| - 1], p) + OwedBy(g, p)
  {
    assert frames[|frames| - 1 := g][..|frames| - 1] == frames[..|frames| - 1];
  }

  lemma OwedBySomebody(frames: seq<Frame>, p: nat)
    ensures Owed(frames, p) == 0 || exists i :: 0 <= i < |frames| && frames[i].pc.Moving? && frames[i].pc.tp == p
  {
    if frames != [] && OwedBy(frames[|frames| - 1], p) == 0 {
      OwedBySomebody(frames[..|frames| - 1], p);
    }
  }

  ghost predicate PageFits(s: State, p: nat)
    requires AllPages(s)
  {
    p <= s.tailPage ==> s.pages[p].write <= BUF_PAGE_SIZE + Owed(s.frames, p)
  }

  ghost predicate ReservationFits(s: State, i: nat)
    requires AllPages(s) && i < |s.frames|
  {
    var Frame(len, pc) := s.frames[i];
    pc.Reserved? ==> pc.page <= s.tailPage && pc.index + len <= s.pages[pc.page].write && pc.index + len <= BUF_PAGE_SIZE
  }

  // A later reservation, successful or not, starts at or after the end of an earlier one.
  ghost predicate Follows(s: State, i: nat, j: nat)
    requires i < j < |s.frames|
  {
    var a, b := s.frames[i], s.frames[j];
    && (a.pc.Reserved? && b.pc.Reserved? && a.pc.page == b.pc.page ==> a.pc.index + a.len <= b.pc.index)
    && (a.pc.Reserved? && b.pc.Moving? && a.pc.page == b.pc.tp ==> a.pc.index + a.len <= b.pc.tail)
  }

  ghost predicate Fits(s: State) {
    && AllPages(s)
    && (forall p: nat :: PageFits(s, p))
    && (forall i | 0 <= i < |s.frames| :: ReservationFits(s, i))
    && (forall i, j | 0 <= i < j < |s.frames| :: Follows(s, i, j))
  }

  // Only the innermost frame differs; no page loses bytes that a reservation below it holds.
  lemma StillFits(s: State, t: State)
    requires Inv(s) && Fits(s) && AllPages(t) && s.frames != []
    requires |t.frames| == |s.frames| && t.frames == s.frames[|s.frames| - 1 := Top(t)]
    requires s.tailPage <= t.tailPage
    requires forall p: nat :: PageFits(t, p)
    requires ReservationFits(t, |s.frames| - 1)
    requires forall i | 0 <= i < |s.frames| - 1 :: ReservationFits(t, i) && Follows(t, i, Depth(t))
    ensures Fits(t)
  {
    forall i, j | 0 <= i < j < |t.frames|
      ensures Follows(t, i, j)
    {
      if j < Depth(t) {
        assert Follows(s, i, j);
      }
    }
  }

  function Depth(s: State): int {
    |s.frames| - 1
  }

  // A page that is not full, or not yet reached, has no failed reservation on it.
  lemma NothingOwed(s: State, p: nat)
    requires Inv(s) && (s.pages[p].write <= BUF_PAGE_SIZE || s.tailPage < p)
    ensures Owed(s.frames, p) == 0
  {
    OwedBySomebody(s.frames, p);
    if i :| 0 <= i < |s.frames| && s.frames[i].pc.Moving? && s.frames[i].pc.tp == p {
      assert FrameOk(s, i);
    }
  }

  lemma MovePageFitsEarly(s: State, env: Env, p: nat)
    requires TopReady(s) && Top(s).pc.Moving? && Early(Top(s).pc.move) && PageFits(s, p)
    ensures AllPages(MoveStep(s, env)) && PageFits(MoveStep(s, env), p)
  {
    OwedTop(s.frames, Top(MoveStep(s, env)), p);
  }

  lemma MovePageFits(s: State, env: Env, p: nat)
    requires TopReady(s) && Top(s).pc.Moving? && EmptiedOk(s, |s.frames| - 1) && PageFits(s, p)
    requires s.tailPage < p ==> Owed(s.frames, p) == 0
    ensures AllPages(MoveStep(s, env)) && PageFits(MoveStep(s, env), p)
  {
    if Early(Top(s).pc.move) {
      MovePageFitsEarly(s, env, p);
    } else {
      assert Undisturbed(s, |s.frames| - 1);
      OwedTop(s.frames, Top(MoveStep(s, env)), p);
    }
  }

  lemma MoveLowerFits(s: State, env: Env, i: nat)
    requires TopReady(s) && Top(s).pc.Moving? && i < |s.frames| - 1
    requires ReservationFits(s, i) && Follows(s, i, Depth(s)) && EmptiedOk(s, |s.frames| - 1)
    ensures var t := MoveStep(s, env); AllPages(t) && ReservationFits(t, i) && Follows(t, i, Depth(t))
  {
  }

  lemma MoveStepFits(s: State, env: Env)
    requires Inv(s) && Fits(s) && s.frames != [] && Top(s).pc.Moving?
    ensures Fits(MoveStep(s, env))
  {
    var t := MoveStep(s, env);
    assert TopReady(s);
    MoveTouches(s, env);
    forall p: nat
      ensures PageFits(t, p)
    {
      if s.tailPage < p { NothingOwed(s, p); }
      MovePageFits(s, env, p);
    }
    forall i | 0 <= i < |s.frames| - 1
      ensures ReservationFits(t, i) && Follows(t, i, Depth(t))
    {
      MoveLowerFits(s, env, i);
    }
    StillFits(s, t);
  }

  lemma AddWriteFits(s: State, env: Env)
    requires Inv(s) && Fits(s) && s.frames != [] && Top(s).pc.AddWrite?
    ensures Fits(WriterStep(s, env))
  {
    var t, n := WriterStep(s, env), Depth(s);
    assert FrameOk(s, n);
    forall p: nat
      ensures PageFits(t, p)
    {
      assert PageFits(s, p);
      OwedTop(s.frames, Top(t), p);
      if s.pages[p].write <= BUF_PAGE_SIZE { NothingOwed(s, p); }
    }
    forall i | 0 <= i < n
      ensures ReservationFits(t, i) && Follows(t, i, Depth(t))
    {
      assert ReservationFits(s, i);
    }
    StillFits(s, t);
  }

  // Steps that change no write index and start no reservation.
  lemma QuietFits(s: State, t: State)
    requires Fits(s) && AllPages(t) && t.tailPage == s.tailPage
    requires forall p: nat :: t.pages[p].write == s.pages[p].write
    requires forall p: nat :: Owed(t.frames, p) == Owed(s.frames, p)
    requires forall i | 0 <= i < |t.frames| && (t.frames[i].pc.Reserved? || t.frames[i].pc.Moving?) ::
               i < |s.frames| && s.frames[i] == t.frames[i]
    ensures Fits(t)
  {
    forall p: nat ensures PageFits(t, p) { assert PageFits(s, p); }
    forall i | 0 <= i < |t.frames|
      ensures ReservationFits(t, i)
    {
      if t.frames[i].pc.Reserved? { assert ReservationFits(s, i); }
    }
    forall i, j | 0 <= i < j < |t.frames|
      ensures Follows(t, i, j)
    {
      if j < |s.frames| { assert Follows(s, i, j); }
    }
  }

  lemma InterruptFits(s: State, len: EventLength)
    requires Fits(s)
    ensures Fits(Step(s, Interrupt(len)))
  {
    var t := Step(s, Interrupt(len));
    assert t.frames[..|s.frames|] == s.frames;
    QuietFits(s, t);
  }

  // The writes, and the frames that stand for them, are the same.
  ghost predicate SameWrites(s: State, t: State)
    requires AllPages(s)
  {
    && AllPages(t) && t.tailPage == s.tailPage
    && (forall p: nat :: t.pages[p].write == s.pages[p].write)
    && (forall i | 0 <= i < |t.frames| && (t.frames[i].pc.Reserved? || t.frames[i].pc.Moving?) ::
          i < |s.frames| && s.frames[i] == t.frames[i])
  }

  lemma PublishWrites(s: State)
    requires AllPages(s) && s.frames != [] && Top(s).pc.Publishing?
    ensures SameWrites(s, PublishStep(s))
  {
  }

  lemma OtherWrites(s: State, env: Env)
    requires AllPages(s) && s.frames != [] && !Top(s).pc.AddWrite? && !Top(s).pc.Moving?
    ensures SameWrites(s, WriterStep(s, env))
  {
    if Top(s).pc.Publishing? { PublishWrites(s); }
  }

  lemma OtherOwes(s: State, env: Env)
    requires AllPages(s) && s.frames != [] && !Top(s).pc.AddWrite? && !Top(s).pc.Moving?
    ensures forall p: nat :: Owed(WriterStep(s, env).frames, p) == Owed(s.frames, p)
  {
    var t := WriterStep(s, env);
    forall p: nat
      ensures Owed(t.frames, p) == Owed(s.frames, p)
    {
      if |t.frames| == |s.frames| {
        assert t.frames == s.frames[|s.frames| - 1 := Top(t)];
        OwedTop(s.frames, Top(t), p);
      }
    }
  }

  lemma {:induction false} RunFits(s: State, run: seq<Choice>)
    requires Inv(s) && Fits(s)
    ensures Fits(Exec(s, run))
    decreases |run|
  {
    if run != [] {
      StepKeeps(s, run[0]);
      if run[0].Run? && s.frames != [] && Top(s).pc.Moving? {
        MoveStepFits(s, run[0].env);
      } else if run[0].Run? && s.frames != [] && Top(s).pc.AddWrite? {
        AddWriteFits(s, run[0].env);
      } else if run[0].Run? && s.frames != [] {
        OtherWrites(s, run[0].env);
        OtherOwes(s, run[0].env);
        QuietFits(s, Step(s, run[0]));
      } else if run[0].Interrupt? {
        InterruptFits(s, run[0].len);
      }
      RunFits(Step(s, run[0]), run[1..]);
    }
  }

  // Whether the published position reaches past byte `index` of page `page`.
  ghost predicate Covers(s: State, page: nat, index: nat)
    requires AllPages(s)
  {
    page < s.commitPage || (page == s.commitPage && index < s.pages[page].commit)
  }

  // The pages a writer may read or change in its current call.
  function Touchable(pc: Pc): set<nat> {
    match pc
    case AddWrite(tp) => {tp}
    case Moving(phase, tp, _, _) => if phase.BumpNext? || PastBump(phase) then {tp, tp + 1} else {tp}
    case Reserved(page, _) => {page}
    case _ => {}
  }

  lemma {:induction false} InitOk(s: State)
    requires Init(s)
    ensures Inv(s)
  {
  }

  /** Whatever interrupts whom, the published position never covers an event whose writer has not
      reached its commit. */
  lemma NeverCoversUnfinished(s: State, run: seq<Choice>)
    requires Init(s)
    ensures Inv(s)
    ensures var t := Exec(s, run);
            AllPages(t) && forall i | 0 <= i < |t.frames| && t.frames[i].pc.Reserved? ::
                             !Covers(t, t.frames[i].pc.page, t.frames[i].pc.index)
  {
    InitOk(s);
    RunKeeps(s, run);
    var t := Exec(s, run);
    forall i | 0 <= i < |t.frames| && t.frames[i].pc.Reserved?
      ensures !Covers(t, t.frames[i].pc.page, t.frames[i].pc.index)
    {
      assert FrameOk(t, i);
    }
  }

  /** Whenever no writer is in flight, everything written has been published, and it ends inside
      the page. */
  lemma QuiescentIsPublished(s: State, run: seq<Choice>)
    requires Init(s)
    ensures Inv(s)
    ensures var t := Exec(s, run);
            AllPages(t) && (t.frames == [] ==>
              && t.commitPage == t.tailPage
              && t.pages[t.commitPage].commit == t.pages[t.tailPage].write <= BUF_PAGE_SIZE
              && t.committing == 0)
  {
    InitOk(s);
    RunKeeps(s, run);
    RunFits(s, run);
    assert PageFits(Exec(s, run), Exec(s, run).tailPage);
  }

  /** Reservations held at the same time are disjoint and lie inside their page. */
  lemma ReservationsDisjoint(s: State, run: seq<Choice>)
    requires Init(s)
    ensures Inv(s)
    ensures var t := Exec(s, run);
            && (forall i | 0 <= i < |t.frames| && t.frames[i].pc.Reserved? ::
                  t.frames[i].pc.index + t.frames[i].len <= BUF_PAGE_SIZE)
            && (forall i, j | 0 <= i < j < |t.frames| && t.frames[i].pc.Reserved? && t.frames[j].pc.Reserved?
                              && t.frames[i].pc.page == t.frames[j].pc.page ::
                  t.frames[i].pc.index + t.frames[i].len <= t.frames[j].pc.index)
  {
    InitOk(s);
    RunFits(s, run);
    var t := Exec(s, run);
    forall i | 0 <= i < |t.frames| && t.frames[i].pc.Reserved?
      ensures t.frames[i].pc.index + t.frames[i].len <= BUF_PAGE_SIZE
    {
      assert ReservationFits(t, i);
    }
    forall i, j | 0 <= i < j < |t.frames| && t.frames[i].pc.Reserved? && t.frames[j].pc.Reserved?
                  && t.frames[i].pc.page == t.frames[j].pc.page
      ensures t.frames[i].pc.index + t.frames[i].len <= t.frames[j].pc.index
    {
      assert Follows(t, i, j);
    }
  }

  /** Every page any writer can touch lies within one lap of the commit page, so two page numbers in
      use never name the same physical page. */
  lemma WindowFits(s: State, run: seq<Choice>)
    requires Init(s)
    ensures Inv(s)
    ensures var t := Exec(s, run);
            && t.nrPages == s.nrPages
            && t.commitPage <= t.tailPage < t.commitPage + t.nrPages
            && forall i, p | 0 <= i < |t.frames| && p in Touchable(t.frames[i].pc) ::
                 t.commitPage <= p < t.commitPage + t.nrPages
  {
    InitOk(s);
    RunKeeps(s, run);
    RunKeepsSize(s, run);
    var t := Exec(s, run);
    forall i, p | 0 <= i < |t.frames| && p in Touchable(t.frames[i].pc)
      ensures t.commitPage <= p < t.commitPage + t.nrPages
    {
      assert FrameOk(t, i);
    }
  }

  lemma {:induction false} RunKeepsSize(s: State, run: seq<Choice>)
    requires Inv(s)
    ensures Exec(s, run).nrPages == s.nrPages
    decreases |run|
  {
    if run != [] {
      StepKeeps(s, run[0]);
      RunKeepsSize(Step(s, run[0]), run[1..]);
    }
  }

  lemma OthersKeepCommit(s: State, c: Choice)
    requires Inv(s)
    requires c.Interrupt? || s.frames == [] || !Top(s).pc.Publishing?
    ensures var t := Step(s, c);
            AllPages(t) && t.commitPage == s.commitPage && t.pages[t.commitPage].commit == s.pages[s.commitPage].commit
  {
    StepKeeps(s, c);
    if c.Run? && s.frames != [] && Top(s).pc.Moving? {
      assert TopReady(s);
      MoveTouches(s, c.env);
    }
  }

  lemma PublishGrows(s: State, page: nat, index: nat)
    requires TopReady(s) && Top(s).pc.Publishing? && Covers(s, page, index)
    ensures var t := PublishStep(s); AllPages(t) && Covers(t, page, index)
  {
  }

  /** The tail only ever moves to the page after it, and that page is then empty: a stale write or
      commit index of an earlier lap never survives. */
  lemma TailMovesOntoEmptyPage(s: State, c: Choice)
    requires Inv(s) && Step(s, c).tailPage != s.tailPage
    ensures var t := Step(s, c);
            AllPages(t) && t.tailPage == s.tailPage + 1 && t.pages[t.tailPage].write == 0 && t.pages[t.tailPage].commit == 0
  {
    var n := |s.frames| - 1;
    assert FrameOk(s, n) && EmptiedOk(s, n);
    assert Top(s).pc.Moving? ==> Undisturbed(s, n);
  }

  /** No step takes back what was published. */
  lemma PublishedStays(s: State, c: Choice, page: nat, index: nat)
    requires Inv(s) && Covers(s, page, index)
    ensures AllPages(Step(s, c)) && Covers(Step(s, c), page, index)
  {
    if c.Interrupt? || s.frames == [] || !Top(s).pc.Publishing? {
      OthersKeepCommit(s, c);
    } else {
      assert TopReady(s);
      PublishGrows(s, page, index);
    }
  }

  /** A step that publishes more runs while no writer on the stack holds a reservation or is still
      correcting a page's write index. */
  lemma PublishesOnlyWhenAlone(s: State, c: Choice, page: nat, index: nat)
    requires Inv(s) && !Covers(s, page, index)
    requires AllPages(Step(s, c)) && Covers(Step(s, c), page, index)
    ensures forall i | 0 <= i < |s.frames| :: !s.frames[i].pc.Reserved? && !s.frames[i].pc.Moving?
  {
    if c.Interrupt? || s.frames == [] || !Top(s).pc.Publishing? {
      OthersKeepCommit(s, c);
    }
    assert FrameOk(s, |s.frames| - 1);
    forall i | 0 <= i < |s.frames| - 1
      ensures !s.frames[i].pc.Reserved? && !s.frames[i].pc.Moving?
    {
      assert !Counted(s.frames[i].pc);
    }
  }
}
