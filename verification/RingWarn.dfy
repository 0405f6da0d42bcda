/**
 What the writer and the reader can do to each other, and the rules that keep them from it: from every
 initial state, whatever the number of pages, there are runs that raise a warning, lose every flag of
 the ring, or move the tail onto a head page that was not pushed on.
 */
module RingWarn {
  import opened Lists
  import opened RingSwap
  import opened RingOrder
  import opened RingTrail

  /// The start: `r` lists the ring and then the reader's page

  ghost predicate Fresh(s: State, r: seq<nat>) {
    var n := |r| - 1;
    && 2 <= n && Distinct(r) && Ready(s)
    && (forall i | 0 <= i < n - 1 :: s.next[r[i]] == Link(r[i + 1], Normal))
    && s.next[r[n - 1]] == Link(r[0], Head)
    && (forall i | 0 < i < n :: s.prev[r[i]] == r[i - 1]) && s.prev[r[0]] == r[n - 1]
    && s.headPage == r[0] && s.readerPage == r[n] && s.reader == Out
  }

  lemma InitFresh(s: State)
    requires Init(s)
    ensures Fresh(s, Roster(s))
  {
    var n, r := |s.ring|, Roster(s);
    forall i | 0 <= i < n ensures s.next[r[i]].to == Succ(s, i) && s.prev[Succ(s, i)] == r[i] {
      assert NextAt(s, i);
    }
    forall i | 0 < i < n ensures s.prev[r[i]] == r[i - 1] {
      assert s.prev[Succ(s, i - 1)] == s.ring[i - 1];
    }
  }

  /// The reader stalls between its swap and its repair of a `prev`

  // The reader has swapped its page for r[0] and stalls before it repairs the `prev` of r[1].
  ghost predicate Stalled(s: State, r: seq<nat>) {
    var n := |r| - 1;
    && 2 <= n && Distinct(r) && Ready(s)
    && (forall i | 0 <= i < n :: s.next[r[i]] == Link(r[i + 1], Normal))
    && s.next[r[n]] == Link(r[1], Head)
    && (forall i | 0 < i <= n :: s.prev[r[i]] == r[i - 1]) && s.prev[r[0]] == r[n - 1]
    && s.headPage == r[0] && s.readerPage == r[n] && s.reader == FixPrev(r[0])
  }

  lemma Stall(rule: Rule, s: State) returns (h: Trail)
    requires Init(s)
    ensures Sound(h) && h.rule == rule && h.start == s
    ensures Stalled(h.end, Roster(s)) && h.end.tailPage == h.end.commitPage == s.ring[0] && h.end.writer == Idle
  {
    InitFresh(s);
    var r, n := Roster(s), |s.ring|;
    h := Begin(rule, s);
    h := SwapIn(h, s, r[0], r[1], r[n - 1], r[n], 0, 9);
  }

  /// The writer oversteps

  // The writer runs through all pages without finding room ...
  lemma RunThrough(g: Trail, r: seq<nat>) returns (h: Trail)
    requires Sound(g) && !g.rule.once && Stalled(g.end, r) && g.end.tailPage == g.end.commitPage == r[0] && g.end.writer == Idle
    ensures Continues(g, h) && Stalled(h.end, r) && h.end.tailPage == r[|r| - 1] && h.end.commitPage == r[0] && h.end.writer == ReadNext
  {
    h := Go(g, Write(false), g.end.(writer := ReadNext));
    for k := 0 to |r| - 1
      invariant Continues(g, h) && Stalled(h.end, r)
      invariant h.end.tailPage == r[k] && h.end.commitPage == r[0] && h.end.writer == ReadNext
    {
      h := Skip(h, r[k + 1]);
    }
  }

  /** ... and on to the head page: even if the reader spares the page the writer is looking at. */
  lemma Overstep(s: State) returns (h: Trail)
    requires Init(s)
    ensures Sound(h) && h.rule == Rule(true, false, false) && h.start == s && Missteps(h.end, Roster(s))
  {
    var r, n := Roster(s), |s.ring|;
    h := Stall(Rule(true, false, false), s);
    h := RunThrough(h, r);
    h := Ask(h, r[1]);
    h := Pass(h);
    assert Flagged(h.end, r, r[n], Head);
  }

  /// The writer is misled: three or more pages, one move at a time

  // The writer goes once round the ring, page by page.
  lemma Lap(g: Trail, r: seq<nat>) returns (h: Trail)
    requires Sound(g) && Stalled(g.end, r) && g.end.tailPage == g.end.commitPage == r[0] && g.end.writer == Idle
    ensures Continues(g, h) && Stalled(h.end, r) && h.end.tailPage == h.end.commitPage == r[|r| - 1] && h.end.writer == Idle
  {
    h := g;
    for k := 0 to |r| - 1
      invariant Continues(g, h) && Stalled(h.end, r) && h.end.tailPage == h.end.commitPage == r[k] && h.end.writer == Idle
    {
      h := Hop(h, r[k + 1]);
    }
  }

  // The writer has pushed the head page on to r[2], has moved to r[1], and is between the loads of its test: it has
  // just loaded the stale `prev` of r[1].
  ghost predicate Deceived(s: State, r: seq<nat>) {
    var n := |r| - 1;
    && 3 <= n && Distinct(r) && Ready(s)
    && s.next[r[0]].to == r[1] && s.next[r[1]] == Link(r[2], Head) && s.next[r[2]] == Link(r[3], Normal)
    && s.next[r[n]] == Link(r[1], Normal) && s.prev[r[2]] == r[1]
    && s.tailPage == s.commitPage == r[1] && s.headPage == r[0] && s.readerPage == r[n]
    && s.writer == ReaderTestNext(r[2], r[0]) && s.reader == FixPrev(r[0])
  }

  lemma Turn(g: Trail, r: seq<nat>) returns (h: Trail)
    requires Sound(g) && 4 <= |r| && Stalled(g.end, r) && g.end.tailPage == g.end.commitPage == r[|r| - 1] && g.end.writer == Idle
    ensures Continues(g, h)
    ensures var n := |r| - 1;
            h.end == g.end.(next := g.end.next[r[n] := Link(r[1], Update)][r[1] := Link(r[2], Head)][r[n] := Link(r[1], Normal)],
                            ring := g.end.ring[1..] + [g.end.ring[0]], writer := SwapTail(r[1], false))
  {
    h := Go(g, Write(false), g.end.(writer := ReadNext));
    h := Go(h, Write(false), g.end.(writer := TestHead(r[1])));
    h := Claim(h, r[1]);
    h := Push(h, r[1], r[2]);
  }

  lemma Deceive(g: Trail, r: seq<nat>) returns (h: Trail)
    requires Sound(g) && 4 <= |r| && Stalled(g.end, r) && g.end.tailPage == g.end.commitPage == r[|r| - 1] && g.end.writer == Idle
    ensures Continues(g, h) && Deceived(h.end, r)
  {
    h := Turn(g, r);
    h := Go(h, Write(true), h.end.(tailPage := r[1], writer := CommitCompare));
    h := Commit(h);
    h := Go(h, Write(false), h.end.(writer := ReadNext));
    h := Ask(h, r[2]);
  }

  // The reader comes back for the next page and relinks r[0], the page just loaded.
  lemma Relink(g: Trail, r: seq<nat>) returns (h: Trail, base: State)
    requires Sound(g) && Deceived(g.end, r) && !g.rule.sparing
    ensures Continues(g, h) && CanSwap(base, r[2], r[3], r[1], r[0]) && h.end == SwappingIn(base, r[2], r[3], r[1], r[0], 5)
    ensures base.tailPage == base.commitPage == r[1] && base.writer == ReaderTestNext(r[2], r[0]) && base.prev[r[2]] == r[1]
  {
    h := Finish(g, r[0]);
    h := Scan(h, r[1], r[2]);
    base := h.end;
    assert h.end == SwappingIn(base, r[2], r[3], r[1], r[0], 4);
    h := SwapIn(h, base, r[2], r[3], r[1], r[0], 4, 5);
  }

  // The writer is about to enter the head page r[2], which the reader is about to take.
  ghost predicate Entering(s: State, r: seq<nat>, base: State) {
    && 4 <= |r| && Distinct(r) && CanSwap(base, r[2], r[3], r[1], r[0])
    && base.tailPage == base.commitPage == r[1] && base.prev[r[2]] == r[1] && base.writer == SwapTail(r[2], true)
    && s == SwappingIn(base, r[2], r[3], r[1], r[0], 5)
  }

  lemma Enter(s: State) returns (h: Trail, base: State)
    requires Init(s) && 3 <= |s.ring|
    ensures Sound(h) && h.rule == Rule(false, true, true) && h.start == s && Entering(h.end, Roster(s), base)
  {
    var r := Roster(s);
    h := Stall(Rule(false, true, true), s);
    h := Lap(h, r);
    h := Deceive(h, r);
    h, base := Relink(h, r);
    h := Pass(h);
    base := base.(writer := SwapTail(r[2], true));
  }

  // While the writer commits, the reader takes the page it has entered.
  lemma TakeTail(g: Trail, r: seq<nat>, base: State) returns (h: Trail)
    requires Sound(g) && Entering(g.end, r, base)
    ensures Continues(g, h) && h.end.writer == Warned(false)
  {
    h := Arrive(g);
    h := SwapIn(h, base.(tailPage := r[2], writer := CommitTestPrev), r[2], r[3], r[1], r[0], 5, 9);
    h := Trip(h);
  }

  lemma Mislead(s: State) returns (g: Trail, h: Trail)
    requires Init(s) && 3 <= |s.ring|
    ensures Sound(g) && g.rule == Rule(false, true, true) && g.start == s && Missteps(g.end, Roster(s))
    ensures Continues(g, h) && h.end.writer == Warned(false)
  {
    var base;
    g, base := Enter(s);
    assert Flagged(g.end, Roster(s), Roster(s)[1], Head);
    h := TakeTail(g, Roster(s), base);
  }

  /// The writer strays to the reader's page

  // The writer has moved from r[1], where its commit page still is, to the last page of the ring and is between the
  // loads of its test; the reader has since taken r[0] and relinks it.
  ghost predicate Straying(s: State, r: seq<nat>, base: State) {
    var n := |r| - 1;
    && 2 <= n && Distinct(r) && CanSwap(base, r[1], r[2], r[n], r[0])
    && (forall i | 1 <= i < n :: base.next[r[i]] == Link(r[i + 1], Normal))
    && base.prev[r[0]] == r[n - 1] && base.commitPage == r[1] && base.tailPage == r[n - 1]
    && base.writer == SwapTail(r[0], true)
    && s == SwappingIn(base, r[1], r[2], r[n], r[0], 5)
  }

  // The writer fills r[1] and all pages up to the last, and makes the first load of its test.
  lemma RunOn(rule: Rule, s: State) returns (h: Trail)
    requires Init(s) && (rule.once ==> |s.ring| == 2)
    ensures Sound(h) && h.rule == rule && h.start == s && Fresh(h.end, Roster(s))
    ensures h.end.commitPage == s.ring[1] && h.end.tailPage == s.ring[|s.ring| - 1] && h.end.writer == ReaderTestNext(s.ring[0], s.ring[0])
  {
    InitFresh(s);
    var r, n := Roster(s), |s.ring|;
    h := Begin(rule, s);
    h := Hop(h, r[1]);
    h := Go(h, Write(false), h.end.(writer := ReadNext));
    for k := 1 to n - 1
      invariant Sound(h) && h.rule == rule && h.start == s && Fresh(h.end, r)
      invariant h.end.commitPage == r[1] && h.end.tailPage == r[k] && h.end.writer == ReadNext
    {
      h := Skip(h, r[k + 1]);
    }
    h := Ask(h, r[0]);
  }

  // The reader takes r[0].
  ghost predicate Given(s: State, r: seq<nat>) {
    var n := |r| - 1;
    && 2 <= n && Distinct(r) && CanSwap(s, r[1], r[2], r[n], r[0])
    && (forall i | 1 <= i < n :: s.next[r[i]] == Link(r[i + 1], Normal)) && s.prev[r[0]] == r[n - 1]
    && s.commitPage == r[1] && s.tailPage == r[n - 1] && s.writer == ReaderTestNext(r[0], r[0]) && s.reader == Out
  }

  lemma GiveWay(rule: Rule, s: State) returns (h: Trail)
    requires Init(s) && !rule.sparing && (rule.once ==> |s.ring| == 2)
    ensures Sound(h) && h.rule == rule && h.start == s && Given(h.end, Roster(s))
  {
    var r, n := Roster(s), |s.ring|;
    h := RunOn(rule, s);
    h := SwapIn(h, h.end, r[0], r[1], r[n - 1], r[n], 0, 9);
    h := Finish(h, r[0]);
  }

  lemma Stray(rule: Rule, s: State) returns (h: Trail, base: State)
    requires Init(s) && !rule.sparing && (rule.once ==> |s.ring| == 2)
    ensures Sound(h) && h.rule == rule && h.start == s && Straying(h.end, Roster(s), base)
  {
    var r, n := Roster(s), |s.ring|;
    h := GiveWay(rule, s);
    base := h.end;
    h := SwapIn(h, base, r[1], r[2], r[n], r[0], 0, 5);
    h := Pass(h);
    base := base.(writer := SwapTail(r[0], true));
  }

  // It commits there and warns.
  lemma CommitAstray(g: Trail, r: seq<nat>, base: State) returns (h: Trail)
    requires Sound(g) && Straying(g.end, r, base)
    ensures Continues(g, h) && h.end.writer == Warned(false)
  {
    h := Arrive(g);
    h := Trip(h);
  }

  // It goes on instead: the link of the reader's page has been flagged meanwhile, and the writer pushes that flag
  // along the ring as it moves. It is about to flag the link behind r[m].
  ghost predicate Racing(s: State, r: seq<nat>, m: nat) {
    var n := |r| - 1;
    && 2 <= m <= n && Distinct(r) && Ready(s)
    && s.tailPage == (if m == 2 then r[0] else r[m - 1]) && s.next[s.tailPage] == Link(r[m], Update)
    && (forall i | m <= i < n :: s.next[r[i]] == Link(r[i + 1], Normal))
    && (forall i | 0 <= i < m && i != 1 :: s.next[r[i]].flag != Head)
    && s.next[r[n]] == Link(r[1], Head) && s.prev[r[1]] == r[n]
    && s.commitPage == s.headPage == r[1] && s.readerPage == r[0]
    && s.writer == SetHead(r[m], if m < n then r[m + 1] else r[1], true) && s.reader == LoadLink(r[1])
  }

  lemma Race(g: Trail, r: seq<nat>, base: State) returns (h: Trail)
    requires Sound(g) && Straying(g.end, r, base) && !g.rule.once
    ensures Continues(g, h) && Racing(h.end, r, 2)
  {
    var n := |r| - 1;
    h := LookOn(g, r[0], r[2]);
    h := SwapIn(h, base.(tailPage := r[0], writer := TestHead(r[2])), r[1], r[2], r[n], r[0], 5, 7);
    h := Claim(h, r[2]);
  }

  ghost function Raced(s: State, r: seq<nat>, m: nat): State
    requires m + 1 < |r| && Racing(s, r, m)
  {
    var pushed := s.next[r[m] := Link(r[m + 1], Head)][s.tailPage := Link(r[m], Normal)];
    s.(next := pushed[r[m] := Link(r[m + 1], Update)], ring := s.ring[1..] + [s.ring[0]], tailPage := r[m],
       writer := SetHead(r[m + 1], if m + 2 < |r| then r[m + 2] else r[1], true))
  }

  lemma RacedRaces(s: State, r: seq<nat>, m: nat)
    requires m + 1 < |r| && Racing(s, r, m)
    ensures Racing(Raced(s, r, m), r, m + 1)
  {
  }

  lemma RaceOn(g: Trail, r: seq<nat>, m: nat) returns (h: Trail)
    requires Sound(g) && !g.rule.once && m + 1 < |r| && Racing(g.end, r, m)
    ensures Continues(g, h) && h.end == Raced(g.end, r, m)
  {
    h := Push(g, r[m], r[m + 1]);
    h := LookOn(h, r[m], r[m + 1]);
    h := Claim(h, r[m + 1]);
  }

  // The reader takes the page whose link the writer is about to flag.
  lemma Collide(g: Trail, r: seq<nat>) returns (h: Trail)
    requires Sound(g) && 3 <= |r| && Racing(g.end, r, |r| - 1)
    ensures Continues(g, h)
    ensures h.end == SetLink(g.end, r[|r| - 1], Link(r[0], Normal)).(reader := FixPrev(r[1]), ring := g.end.ring[1..] + [r[0]], writer := Warned(true))
  {
    var n, s := |r| - 1, g.end;
    var taken := SetLink(s, r[n], Link(r[0], Normal)).(reader := FixPrev(r[1]), ring := s.ring[1..] + [r[0]]);
    h := Go(g, Read(false), s.(reader := Replace(r[1], r[n], r[1])));
    h := Go(h, Read(false), taken);
    h := Go(h, Write(false), taken.(writer := Warned(true)));
  }

  lemma NoHeadLeft(s: State, r: seq<nat>, x: nat)
    requires 3 <= |r| && Racing(s, r, |r| - 1) && x in r && x != r[1]
    ensures SetLink(s, r[|r| - 1], Link(r[0], Normal)).next[x].flag != Head
  {
    var i :| 0 <= i < |r| && r[i] == x;
  }

  lemma RaceRound(g: Trail, r: seq<nat>) returns (h: Trail)
    requires Sound(g) && !g.rule.once && 3 <= |r| && Racing(g.end, r, 2)
    ensures Continues(g, h) && Racing(h.end, r, |r| - 1)
  {
    h := g;
    for m := 2 to |r| - 1
      invariant Continues(g, h) && Racing(h.end, r, m)
    {
      RacedRaces(h.end, r, m);
      h := RaceOn(h, r, m);
    }
  }

  lemma NoHeadNoCycle(s: State, all: seq<nat>)
    requires AllPages(s) && !HandingOver(s.writer) && forall x | x in all && x != Off(s) :: s.next[x].flag != Head
    ensures !FlaggedCycle(s, all)
  {
    assert forall x :: !Flagged(s, all, x, Head);
  }

  lemma StrayOn(s: State) returns (h: Trail)
    requires Init(s)
    ensures Sound(h) && h.rule == Rule(false, false, true) && h.start == s && Racing(h.end, Roster(s), |s.ring|)
  {
    var base;
    h, base := Stray(Rule(false, false, true), s);
    h := Race(h, Roster(s), base);
    h := RaceRound(h, Roster(s));
  }

  /** From every initial state, with any number of pages, a writer that moves its tail over several pages in one
      reservation can be made to warn in the hand-over, with no HEAD link left in the ring. */
  lemma LoseFlags(s: State) returns (h: Trail)
    requires Init(s)
    ensures Sound(h) && h.rule == Rule(false, false, true) && h.start == s
    ensures h.end.writer == Warned(true) && !FlaggedCycle(h.end, Roster(s))
  {
    var g := StrayOn(s);
    h := Collide(g, Roster(s));
    forall x | x in Roster(s) && x != Off(h.end) ensures h.end.next[x].flag != Head {
      NoHeadLeft(g.end, Roster(s), x);
    }
    NoHeadNoCycle(h.end, Roster(s));
  }

  /// What each rule is good for

  // `weak` asks for nothing that `strong` does not.
  predicate Weaker(weak: Rule, strong: Rule) {
    (weak.sparing ==> strong.sparing) && (weak.once ==> strong.once) && (weak.prompt ==> strong.prompt)
  }

  lemma {:induction false} ObeysWeaker(weak: Rule, strong: Rule, s: State, run: seq<Choice>)
    requires Ready(s) && Weaker(weak, strong) && Obeys(strong, s, run)
    ensures Obeys(weak, s, run)
    decreases |run|
  {
    if run != [] {
      StepReady(s, run[0]);
      ObeysWeaker(weak, strong, Step(s, run[0]), run[1..]);
    }
  }

  lemma Permits(rule: Rule, h: Trail)
    requires Sound(h) && Weaker(rule, h.rule)
    ensures Obeys(rule, h.start, h.run) && Exec(h.start, h.run) == h.end
  {
    ObeysWeaker(rule, h.rule, h.start, h.run);
  }

  /** From every initial state, with any number of pages, even a writer that moves its tail once per reservation
      can be made to leave the order of the ring, and to warn. */
  lemma SplitTestWarns(s: State) returns (g: Trail, h: Trail)
    requires Init(s)
    ensures Sound(g) && g.rule == Rule(false, true, true) && g.start == s && Missteps(g.end, Roster(s))
    ensures Continues(g, h) && h.end.writer == Warned(false)
  {
    if |s.ring| == 2 {
      var base;
      g, base := Stray(Rule(false, true, true), s);
      h := CommitAstray(g, Roster(s), base);
    } else {
      g, h := Mislead(s);
    }
  }

  /** The writer never warns exactly if the reader is kept from setting the `next` of its spare page between
      the two loads of a test that has just found that page. */
  lemma NeverWarnsExactly(s: State, rule: Rule)
    requires Init(s)
    ensures (forall run | Obeys(rule, s, run) :: !Exec(s, run).writer.Warned?) <==> rule.sparing
  {
    if rule.sparing {
      forall run | Obeys(rule, s, run) ensures !Exec(s, run).writer.Warned? {
        SparingRunsStayOrdered(rule, s, run);
      }
    } else {
      var _, h := SplitTestWarns(s);
      Permits(rule, h);
    }
  }

  /** The ring stays a flagged cycle exactly if that rule is kept or no reservation moves the tail twice. */
  lemma StaysFlaggedExactly(s: State, rule: Rule)
    requires Init(s)
    ensures (forall run | Obeys(rule, s, run) :: FlaggedCycle(Exec(s, run), Roster(s))) <==> rule.sparing || rule.once
  {
    if rule.sparing || rule.once {
      forall run | Obeys(rule, s, run) ensures FlaggedCycle(Exec(s, run), Roster(s)) {
        InitHolds(rule, s);
        RunHolds(rule, s, run);
        RingStaysFlaggedCycle(s, run);
      }
    } else {
      var h := LoseFlags(s);
      Permits(rule, h);
    }
  }

  /** And so is the hand-over of the head page free of warnings. */
  lemma HandOverWarnsExactly(s: State, rule: Rule)
    requires Init(s)
    ensures (forall run | Obeys(rule, s, run) :: Exec(s, run).writer != Warned(true)) <==> rule.sparing || rule.once
  {
    if rule.sparing || rule.once {
      forall run | Obeys(rule, s, run) ensures Exec(s, run).writer != Warned(true) {
        InitHolds(rule, s);
        RunHolds(rule, s, run);
      }
    } else {
      var h := LoseFlags(s);
      Permits(rule, h);
    }
  }

  /** The tail leaves a ring page only for a ring page whose flag was pushed on, exactly if the reader spares that
      page and the writer moves its tail once per reservation or does not overstep. */
  lemma EntersPushedExactly(s: State, rule: Rule)
    requires Init(s)
    ensures (forall run | Obeys(rule, s, run) :: !Missteps(Exec(s, run), Roster(s))) <==> rule.sparing && (rule.once || rule.prompt)
  {
    if rule.sparing && (rule.once || rule.prompt) {
      forall run | Obeys(rule, s, run) ensures !Missteps(Exec(s, run), Roster(s)) {
        InitHolds(rule, s);
        RunHolds(rule, s, run);
        RunKeeps(s, run);
        NoMisstep(rule, Exec(s, run), Roster(s));
      }
    } else if rule.sparing {
      var h := Overstep(s);
      Permits(rule, h);
    } else {
      var h, _ := SplitTestWarns(s);
      Permits(rule, h);
    }
  }
}
