/**
 The order of the head, commit and tail pages while one writer and one reader share the ring, and what
 it takes for the writer's test rb_is_reader_page to be right: the test loads the `prev` of a page and
 then the `next` of what it found, and the reader may run between the two loads.
 */
module RingOrder {
  import opened RingSwap

  // Between the two loads of rb_is_reader_page.
  predicate MidTest(w: WriterPc) {
    w.ReaderTestNext? || w.CommitTestNext?
  }

  // The commit page is not past the tail page, and from outside the ring it leads to the head page.
  ghost predicate InOrder(s: State)
    requires AllPages(s) && 2 <= |s.ring|
  {
    Behind(s) && (s.commitPage == Off(s) ==> s.next[s.commitPage].to == s.ring[0])
  }

  // The writer's second load will give, or has given, the right answer.
  ghost predicate Informed(s: State)
    requires AllPages(s) && 2 <= |s.ring|
  {
    match s.writer
    case ReaderTestNext(nx, p) => s.commitPage in s.ring ==> s.next[p].to == s.commitPage
    case TestReader(_) => s.commitPage == Off(s)
    case SwapTail(_, onReader) => onReader ==> s.commitPage == Off(s)
    case CommitTestNext(p) => s.commitPage != s.tailPage && s.next[p].to == s.tailPage
    case CommitTestPrev => s.commitPage != s.tailPage
    case CommitAdvance => s.commitPage != s.tailPage
    case Warned(_) => false
    case _ => true
  }

  ghost predicate Ordered(s: State) {
    AllPages(s) && 2 <= |s.ring| && InOrder(s) && Informed(s)
  }

  /// The test

  /** Evaluated in one go, the test rb_is_reader_page answers exactly whether the commit page is the
      one outside the ring. */
  lemma ReaderTestExact(s: State)
    requires Inv(s)
    ensures s.next[s.prev[s.commitPage]].to != s.commitPage <==> s.commitPage == Off(s)
  {
    if s.commitPage in s.ring {
      RingPageTest(s, s.commitPage);
    } else {
      var _ := RingNext(s, s.prev[s.commitPage]);
    }
  }

  /// Writer steps

  lemma PcInOrder(s: State, t: State)
    requires Ordered(s) && OnlyPc(s, t)
    ensures AllPages(t) && 2 <= |t.ring| && InOrder(t)
  {
  }

  lemma FirstLoadOrdered(s: State, stop: bool)
    requires Cycle(s) && Prevs(s) && Ordered(s) && s.writer.ReaderTestPrev?
    ensures Ordered(WriterStep(s, stop))
  {
    PcInOrder(s, WriterStep(s, stop));
    if s.commitPage in s.ring {
      RingPageTest(s, s.commitPage);
    }
  }

  lemma SecondLoadOrdered(s: State, stop: bool)
    requires Cycle(s) && WriterOk(s) && Ordered(s) && s.writer.ReaderTestNext?
    ensures Ordered(WriterStep(s, stop))
  {
    PcInOrder(s, WriterStep(s, stop));
  }

  // A flag on the tail's link changes no link.
  lemma FlagInOrder(s: State, t: State)
    requires Ordered(s) && AllPages(t) && t.ring == s.ring && Off(t) == Off(s)
    requires t.tailPage == s.tailPage && t.commitPage == s.commitPage && (forall x: nat :: t.next[x].to == s.next[x].to)
    ensures InOrder(t)
  {
  }

  lemma FlagOrdered(s: State, stop: bool)
    requires Cycle(s) && WriterOk(s) && Ordered(s) && (s.writer.SetUpdate? || s.writer.SetNormal?)
    ensures Ordered(WriterStep(s, stop))
  {
    FlagInOrder(s, WriterStep(s, stop));
  }

  lemma PlainOrdered(s: State, stop: bool)
    requires Ordered(s)
    requires s.writer.Idle? || s.writer.ReadNext? || s.writer.TestHead? || s.writer.TestReader? || s.writer.ReadNewHead?
          || s.writer.CommitCompare? || s.writer.CommitTestNext?
    ensures Ordered(WriterStep(s, stop))
  {
    PcInOrder(s, WriterStep(s, stop));
  }

  lemma SetHeadOrdered(s: State, stop: bool)
    requires Cycle(s) && Flags(s) && WriterOk(s) && Ordered(s) && s.writer.SetHead?
    ensures Ordered(WriterStep(s, stop))
  {
    assert NextAt(s, 0);
    Rotated(s.ring, s.ring[1..] + [s.ring[0]]);
  }

  lemma SwapTailOrdered(s: State, stop: bool)
    requires Cycle(s) && Flags(s) && WriterOk(s) && Ordered(s) && s.writer.SwapTail?
    ensures Ordered(WriterStep(s, stop))
  {
    if s.tailPage in s.ring {
      var i := RingNext(s, s.tailPage);
    }
  }

  lemma CommitTestOrdered(s: State, stop: bool)
    requires Cycle(s) && Prevs(s) && WriterOk(s) && Ordered(s) && s.writer.CommitTestPrev?
    ensures Ordered(WriterStep(s, stop))
  {
    PcInOrder(s, WriterStep(s, stop));
    RingPageTest(s, s.tailPage);
  }

  lemma CommitAdvanceOrdered(s: State, stop: bool)
    requires Cycle(s) && WriterOk(s) && Ordered(s) && s.writer.CommitAdvance?
    ensures Ordered(WriterStep(s, stop))
  {
    if s.commitPage in s.ring {
      var i := RingNext(s, s.commitPage);
    }
  }

  lemma WriterOrdered(s: State, stop: bool)
    requires Inv(s) && Ordered(s)
    ensures Ordered(WriterStep(s, stop))
  {
    match s.writer
    case ReaderTestPrev(_) => FirstLoadOrdered(s, stop);
    case ReaderTestNext(_, _) => SecondLoadOrdered(s, stop);
    case SetUpdate(_) | SetNormal(_) => FlagOrdered(s, stop);
    case SetHead(_, _, _) => SetHeadOrdered(s, stop);
    case SwapTail(_, _) => SwapTailOrdered(s, stop);
    case CommitTestPrev => CommitTestOrdered(s, stop);
    case CommitAdvance => CommitAdvanceOrdered(s, stop);
    case _ => PlainOrdered(s, stop);
  }

  /// Reader steps

  predicate Swaps(s: State)
    requires s.reader.Replace? ==> s.reader.p in s.next
  {
    s.reader.Replace? && s.next[s.reader.p] == Link(s.reader.v, Head)
  }

  // The reader sets the `next` of its spare page while the writer is about to load it.
  predicate Relinks(s: State, c: Choice) {
    c.Read? && s.reader.CopyNext? && MidTest(s.writer) && s.writer.p == s.readerPage
  }

  // What every reader step other than a successful swap leaves alone.
  ghost predicate NoSwap(s: State, t: State)
    requires AllPages(s)
  {
    && AllPages(t) && t.ring == s.ring && Off(t) == Off(s)
    && t.tailPage == s.tailPage && t.commitPage == s.commitPage && t.writer == s.writer
    && (forall x: nat :: x != s.readerPage || !Swapping(s.reader) ==> t.next[x] == s.next[x])
    && (!s.reader.CopyNext? ==> t.next[s.readerPage].to == s.next[s.readerPage].to)
  }

  lemma ReadIsNoSwap(s: State, giveUp: bool)
    requires Ready(s) && !Swaps(s)
    ensures NoSwap(s, ReaderStep(s, giveUp))
  {
  }

  lemma NoSwapOrdered(s: State, t: State)
    requires Cycle(s) && WriterOk(s) && Ordered(s) && NoSwap(s, t)
    requires s.reader.CopyNext? && MidTest(s.writer) ==> s.writer.p != s.readerPage
    ensures Ordered(t)
  {
  }

  lemma SwapInOrder(s: State, giveUp: bool)
    requires Inv(s) && Swaps(s) && InOrder(s)
    ensures var t := ReaderStep(s, giveUp); AllPages(t) && 2 <= |t.ring| && InOrder(t)
  {
    SwapPositions(s, giveUp);
    SwapBehind(s, giveUp);
    assert NextAt(s, 0);
  }

  // The link the writer is about to load stays, unless the page it leads to is the one taken.
  lemma SwapOrdered(s: State, giveUp: bool)
    requires Inv(s) && Swaps(s) && Ordered(s)
    ensures Ordered(ReaderStep(s, giveUp))
  {
    SwapPositions(s, giveUp);
    SwapMembers(s, giveUp);
    SwapInOrder(s, giveUp);
    assert NextAt(s, |s.ring| - 1);
  }

  lemma ReaderOrdered(s: State, giveUp: bool)
    requires Inv(s) && Ordered(s) && !Relinks(s, Read(giveUp))
    ensures Ordered(ReaderStep(s, giveUp))
  {
    if !Swaps(s) {
      ReadIsNoSwap(s, giveUp);
      NoSwapOrdered(s, ReaderStep(s, giveUp));
    } else {
      SwapOrdered(s, giveUp);
    }
  }

  lemma StepOrdered(s: State, c: Choice)
    requires Inv(s) && Ordered(s) && !Relinks(s, c)
    ensures !Misled(s, c) && Ordered(Step(s, c))
  {
    match c
    case Write(stop) => WriterOrdered(s, stop);
    case Read(giveUp) => ReaderOrdered(s, giveUp);
  }

  /// Runs

  // The writer asks for the reader's page with its tail ahead of its commit page, while the reader is between
  // its swap and the store that makes the page it took its own.
  predicate Oversteps(s: State, c: Choice) {
    c.Write? && s.writer.TestReader? && s.commitPage != s.tailPage && Swapped(s.reader)
  }

  // What a schedule may be held to: `sparing`, the reader does not relink its spare page while the writer is
  // about to load that page's `next`; `once`, every event fits on the first page the tail moves to; `prompt`,
  // the writer does not overstep.
  datatype Rule = Rule(sparing: bool, once: bool, prompt: bool)

  predicate Allows(rule: Rule, s: State, c: Choice) {
    && !(rule.sparing && Relinks(s, c))
    && !(rule.once && Retries(s, c))
    && !(rule.prompt && Oversteps(s, c))
  }

  ghost predicate Obeys(rule: Rule, s: State, run: seq<Choice>)
    requires Ready(s)
    decreases |run|
  {
    run == [] || (
      StepReady(s, run[0]);
      Allows(rule, s, run[0]) && Obeys(rule, Step(s, run[0]), run[1..]))
  }

  // Between reservations, and in each one if the tail moves only once, everything is committed.
  predicate Together(s: State) {
    Committing(s.writer) || s.commitPage == s.tailPage
  }

  // The tail leaves the ring's order only from outside the ring.
  predicate Released(s: State) {
    s.writer.SwapTail? && s.writer.onReader ==> s.commitPage == s.tailPage
  }

  // What holds in all runs that obey the rule.
  ghost predicate Holds(rule: Rule, s: State) {
    && Inv(s) && s.writer != Warned(true)
    && (rule.sparing ==> Ordered(s))
    && (rule.once ==> Together(s))
    && (rule.sparing && rule.prompt ==> Released(s))
  }

  // The tail is about to leave a page of the ring for the page outside, or for the head page with its flag in place.
  ghost predicate Missteps(s: State, all: seq<nat>) {
    && AllPages(s) && s.writer.SwapTail? && s.tailPage != Off(s)
    && (s.writer.nx == Off(s) || exists x :: Flagged(s, all, x, Head) && s.next[x].to == s.writer.nx)
  }

  lemma StepTogether(s: State, c: Choice)
    requires Ready(s) && Together(s) && !Retries(s, c)
    ensures Together(Step(s, c))
  {
  }

  lemma StepReleased(s: State, c: Choice)
    requires Ready(s) && 2 <= |s.ring| && Released(s) && Informed(s) && !Oversteps(s, c)
    ensures Released(Step(s, c))
  {
  }

  lemma StepHolds(rule: Rule, s: State, c: Choice)
    requires Holds(rule, s) && Allows(rule, s, c) && (rule.sparing || rule.once)
    ensures !Misled(s, c) && Holds(rule, Step(s, c))
  {
    if rule.sparing { StepOrdered(s, c); }
    if rule.once { StepTogether(s, c); }
    if rule.sparing && rule.prompt { StepReleased(s, c); }
    StepKeeps(s, c);
    if c.Write? && !s.writer.Warned? { HandOverNeverWarns(s, c.stop); }
  }

  /** In sparing runs a writer whose tail is ahead of a commit page outside the ring passes its last test exactly
      while the reader is between its swap and the store of the page it took. */
  lemma PassesTestExactly(rule: Rule, s: State, stop: bool)
    requires rule.sparing && Holds(rule, s) && s.writer.TestReader? && s.commitPage != s.tailPage
    ensures WriterStep(s, stop).writer.SwapTail? <==> Swapped(s.reader)
  {
  }

  lemma NoMisstep(rule: Rule, s: State, all: seq<nat>)
    requires Holds(rule, s) && rule.sparing && (rule.once || rule.prompt) && forall x :: x in all <==> OnSomePage(s, x)
    ensures !Missteps(s, all)
  {
    if s.writer.SwapTail? && s.tailPage != Off(s) {
      WriterEntersPushedPage(s, true);
      forall x | Flagged(s, all, x, Head) ensures s.next[x].to != s.writer.nx {
        InvFlags(s, all, x);
        assert NextAt(s, |s.ring| - 1);
      }
    }
  }

  /** Every run that obeys a rule with `sparing` or `once` keeps all the rule stands for, and misleads no writer
      into going on. */
  lemma {:induction false} RunHolds(rule: Rule, s: State, run: seq<Choice>)
    requires Holds(rule, s) && Obeys(rule, s, run) && (rule.sparing || rule.once)
    ensures NeverMisled(s, run) && Holds(rule, Exec(s, run))
    decreases |run|
  {
    if run != [] {
      StepHolds(rule, s, run[0]);
      RunHolds(rule, Step(s, run[0]), run[1..]);
    }
  }

  lemma InitHolds(rule: Rule, s: State)
    requires Init(s)
    ensures Holds(rule, s)
  {
    InitOk(s);
  }

  /** As long as the reader does not relink its spare page between the two loads of a test that is about
      to follow that link, no warning is ever raised and the commit page never overtakes the tail page,
      however many pages a reservation moves the tail over. */
  lemma SparingRunsStayOrdered(rule: Rule, s: State, run: seq<Choice>)
    requires Init(s) && rule.sparing && Obeys(rule, s, run)
    ensures var t := Exec(s, run);
            && Inv(t) && !t.writer.Warned? && FlaggedCycle(t, Roster(s))
            && (t.tailPage !in t.ring ==> t.commitPage == t.tailPage)
            && (forall i, j | 0 <= i < |t.ring| && 0 <= j < |t.ring| && t.ring[i] == t.commitPage && t.ring[j] == t.tailPage :: i <= j)
  {
    InitHolds(rule, s);
    RunHolds(rule, s, run);
    RingStaysFlaggedCycle(s, run);
  }

  /// The commit loop

  // The tail page is `k` links ahead of the commit page.
  ghost predicate Gap(s: State, k: nat) {
    || (s.commitPage == Off(s) && if k == 0 then s.tailPage == Off(s) else k <= |s.ring| && s.tailPage == s.ring[k - 1])
    || (exists i :: 0 <= i && i + k < |s.ring| && s.ring[i] == s.commitPage && s.ring[i + k] == s.tailPage)
  }

  lemma SomeGap(s: State) returns (k: nat)
    requires Inv(s) && Ordered(s)
    ensures Gap(s, k) && k <= |s.ring|
  {
    if s.tailPage == Off(s) {
      k := 0;
    } else {
      var j :| 0 <= j < |s.ring| && s.ring[j] == s.tailPage;
      if s.commitPage == Off(s) {
        k := j + 1;
      } else {
        var i :| 0 <= i < |s.ring| && s.ring[i] == s.commitPage;
        k := j - i;
        assert s.ring[i + k] == s.tailPage;
      }
    }
  }

  // A round of rb_set_commit_to_write moves the commit page on.
  predicate Advances(s: State, c: Choice) {
    c.Write? && s.writer.CommitAdvance?
  }

  lemma AdvanceGap(s: State, stop: bool, k: nat)
    requires Inv(s) && Ordered(s) && Gap(s, k) && s.writer.CommitAdvance?
    ensures 0 < k && Gap(WriterStep(s, stop), k - 1)
  {
    var t := WriterStep(s, stop);
    if s.commitPage == Off(s) {
      assert t.ring[0] == t.commitPage && t.ring[0 + (k - 1)] == t.tailPage;
    } else {
      var i :| 0 <= i && i + k < |s.ring| && s.ring[i] == s.commitPage && s.ring[i + k] == s.tailPage;
      assert NextAt(s, i);
      assert t.ring[i + 1] == t.commitPage && t.ring[(i + 1) + (k - 1)] == t.tailPage;
    }
  }

  // The ring has turned by one page, and the page taken is outside.
  lemma TurnGap(s: State, t: State, k: nat)
    requires Gap(s, k) && s.commitPage != Off(s) && t.tailPage == s.tailPage && t.commitPage == s.commitPage
    requires |t.ring| == |s.ring| > 0 && Off(t) == s.ring[0] && forall i | 0 <= i < |s.ring| - 1 :: t.ring[i] == s.ring[i + 1]
    ensures Gap(t, k)
  {
    var i :| 0 <= i && i + k < |s.ring| && s.ring[i] == s.commitPage && s.ring[i + k] == s.tailPage;
    if i > 0 {
      assert t.ring[i - 1] == t.commitPage && t.ring[(i - 1) + k] == t.tailPage;
    } else if k > 0 {
      assert t.ring[k - 1] == t.tailPage;
    }
  }

  lemma ReaderGap(s: State, giveUp: bool, k: nat)
    requires Inv(s) && Gap(s, k)
    ensures Gap(ReaderStep(s, giveUp), k)
  {
    if Swaps(s) {
      SwapPositions(s, giveUp);
      TurnGap(s, ReaderStep(s, giveUp), k);
    } else {
      ReadIsNoSwap(s, giveUp);
      NoSwapGap(s, ReaderStep(s, giveUp), k);
    }
  }

  lemma NoSwapGap(s: State, t: State, k: nat)
    requires AllPages(s) && NoSwap(s, t) && Gap(s, k)
    ensures Gap(t, k)
  {
  }

  lemma StepGap(s: State, c: Choice, k: nat)
    requires Inv(s) && Ordered(s) && Gap(s, k) && Committing(s.writer)
    ensures Advances(s, c) ==> 0 < k
    ensures Gap(Step(s, c), if Advances(s, c) then k - 1 else k)
  {
    if Advances(s, c) {
      AdvanceGap(s, c.stop, k);
    } else if c.Read? {
      ReaderGap(s, c.giveUp, k);
    }
  }

  // The writer is in its commit loop all along the run.
  ghost predicate Loops(s: State, run: seq<Choice>)
    requires Ready(s)
    decreases |run|
  {
    Committing(s.writer) && (run == [] || (
      StepReady(s, run[0]);
      Loops(Step(s, run[0]), run[1..])))
  }

  ghost function Rounds(s: State, run: seq<Choice>): nat
    requires Ready(s)
    decreases |run|
  {
    if run == [] then 0 else
      StepReady(s, run[0]);
      (if Advances(s, run[0]) then 1 else 0) + Rounds(Step(s, run[0]), run[1..])
  }

  lemma {:induction false} RoundsClose(rule: Rule, s: State, run: seq<Choice>, k: nat)
    requires rule.sparing && Holds(rule, s) && Obeys(rule, s, run) && Loops(s, run) && Gap(s, k)
    ensures Rounds(s, run) <= k
    decreases |run|
  {
    if run != [] {
      StepHolds(rule, s, run[0]);
      StepGap(s, run[0], k);
      RoundsClose(rule, Step(s, run[0]), run[1..], if Advances(s, run[0]) then k - 1 else k);
    }
  }

  /** A commit loop takes no more rounds than the ring has pages, so its own limit of a hundred times as many is
      never reached. */
  lemma CommitLoopIsShort(rule: Rule, s: State, run: seq<Choice>)
    requires rule.sparing && Holds(rule, s) && Obeys(rule, s, run) && Loops(s, run)
    ensures Rounds(s, run) <= |s.ring|
  {
    var k := SomeGap(s);
    RoundsClose(rule, s, run, k);
  }
}
