/**
 Ways the writer and the reader of the ring can go, several steps at a time: the pieces from which runs
 that obey a rule are put together.
 */
module RingTrail {
  import opened RingSwap
  import opened RingOrder

  // A run from `start` that obeys `rule` and leads to `end`.
  datatype Trail = Trail(rule: Rule, start: State, run: seq<Choice>, end: State)

  ghost predicate Sound(g: Trail) {
    && Ready(g.start) && Obeys(g.rule, g.start, g.run)
    && Exec(g.start, g.run) == g.end && Ready(g.end)
  }

  ghost predicate Continues(g: Trail, h: Trail) {
    Sound(h) && h.rule == g.rule && h.start == g.start
  }

  lemma {:induction false} ObeysMore(rule: Rule, s: State, run: seq<Choice>, c: Choice)
    requires Ready(s) && Obeys(rule, s, run)
    ensures Ready(Exec(s, run)) && (Allows(rule, Exec(s, run), c) ==> Obeys(rule, s, run + [c]))
    decreases |run|
  {
    StepReady(s, if run == [] then c else run[0]);
    if run == [] {
      assert run + [c] == [c] && [c][1..] == [];
      assert Allows(rule, s, c) ==> Obeys(rule, s, [c]);
    } else {
      ObeysMore(rule, Step(s, run[0]), run[1..], c);
      assert (run + [c])[1..] == run[1..] + [c];
    }
  }

  lemma Begin(rule: Rule, s: State) returns (h: Trail)
    requires Init(s)
    ensures Sound(h) && h == Trail(rule, s, [], s)
  {
    h := Trail(rule, s, [], s);
  }

  // One more step, to `t`.
  lemma Go(g: Trail, c: Choice, t: State) returns (h: Trail)
    requires Sound(g) && Allows(g.rule, g.end, c) && Step(g.end, c) == t
    ensures Continues(g, h) && h.end == t
  {
    ObeysMore(g.rule, g.start, g.run, c);
    ExecExtend(g.start, g.run, c);
    StepReady(g.end, c);
    h := Trail(g.rule, g.start, g.run + [c], t);
  }

  /// The writer

  // The commit page catches up with the tail page after it.
  lemma Commit(g: Trail) returns (h: Trail)
    requires Sound(g) && g.end.writer == CommitCompare && g.end.commitPage != g.end.tailPage
    requires g.end.next[g.end.prev[g.end.tailPage]].to == g.end.tailPage == g.end.next[g.end.commitPage].to
    ensures Continues(g, h) && h.end == g.end.(commitPage := g.end.tailPage, writer := Idle)
  {
    var s := g.end;
    h := Go(g, Write(true), s.(writer := CommitTestPrev));
    h := Go(h, Write(true), s.(writer := CommitTestNext(s.prev[s.tailPage])));
    h := Go(h, Write(true), s.(writer := CommitAdvance));
    h := Go(h, Write(true), s.(commitPage := s.tailPage, writer := CommitCompare));
    h := Go(h, Write(true), s.(commitPage := s.tailPage, writer := Idle));
  }

  // The writer moves to the next page and commits.
  lemma Hop(g: Trail, nx: nat) returns (h: Trail)
    requires Sound(g) && g.end.writer == Idle && g.end.commitPage == g.end.tailPage != nx
    requires g.end.next[g.end.tailPage] == Link(nx, Normal) && g.end.prev[nx] == g.end.tailPage
    ensures Continues(g, h) && h.end == g.end.(tailPage := nx, commitPage := nx)
  {
    var s := g.end;
    h := Go(g, Write(false), s.(writer := ReadNext));
    h := Go(h, Write(false), s.(writer := TestHead(nx)));
    h := Go(h, Write(false), s.(writer := SwapTail(nx, false)));
    h := Go(h, Write(true), s.(tailPage := nx, writer := CommitCompare));
    h := Commit(h);
  }

  // The writer moves to the next page and finds no room there either.
  lemma Skip(g: Trail, nx: nat) returns (h: Trail)
    requires Sound(g) && g.end.writer == ReadNext && nx != g.end.commitPage && !g.rule.once
    requires g.end.next[g.end.tailPage] == Link(nx, Normal)
    ensures Continues(g, h) && h.end == g.end.(tailPage := nx)
  {
    h := Go(g, Write(false), g.end.(writer := TestHead(nx)));
    h := Go(h, Write(false), g.end.(writer := SwapTail(nx, false)));
    h := Go(h, Write(false), g.end.(tailPage := nx));
  }

  // The writer meets the head page and makes the first load of its test.
  lemma Ask(g: Trail, nx: nat) returns (h: Trail)
    requires Sound(g) && g.end.writer == ReadNext && nx != g.end.commitPage
    requires g.end.next[g.end.tailPage] == Link(nx, Head)
    ensures Continues(g, h) && h.end == g.end.(writer := ReaderTestNext(nx, g.end.prev[g.end.commitPage]))
  {
    h := Go(g, Write(false), g.end.(writer := TestHead(nx)));
    h := Go(h, Write(false), g.end.(writer := ReaderTestPrev(nx)));
    h := Go(h, Write(false), g.end.(writer := ReaderTestNext(nx, g.end.prev[g.end.commitPage])));
  }

  // The writer finds its commit page in the ring and claims the head page.
  lemma Claim(g: Trail, nx: nat) returns (h: Trail)
    requires Sound(g) && g.end.writer == TestHead(nx) && nx != g.end.tailPage
    requires g.end.next[g.end.tailPage] == Link(nx, Head) && g.end.next[g.end.prev[g.end.commitPage]].to == g.end.commitPage
    ensures Continues(g, h)
    ensures h.end == g.end.(next := g.end.next[g.end.tailPage := Link(nx, Update)], writer := SetHead(nx, g.end.next[nx].to, true))
  {
    var s := g.end;
    var marked := SetLink(s, s.tailPage, Link(nx, Update));
    h := Go(g, Write(false), s.(writer := ReaderTestPrev(nx)));
    h := Go(h, Write(false), s.(writer := ReaderTestNext(nx, s.prev[s.commitPage])));
    h := Go(h, Write(false), s.(writer := SetUpdate(nx)));
    h := Go(h, Write(false), marked.(writer := ReadNewHead(nx, true)));
    h := Go(h, Write(false), marked.(writer := SetHead(nx, s.next[nx].to, true)));
  }

  // The writer pushes the head page on.
  lemma Push(g: Trail, nx: nat, newHead: nat) returns (h: Trail)
    requires Sound(g) && g.end.writer == SetHead(nx, newHead, true) && nx != g.end.tailPage
    requires g.end.next[nx] == Link(newHead, Normal) && g.end.next[g.end.tailPage] == Link(nx, Update)
    ensures Continues(g, h)
    ensures h.end == g.end.(next := g.end.next[nx := Link(newHead, Head)][g.end.tailPage := Link(nx, Normal)],
                            ring := g.end.ring[1..] + [g.end.ring[0]], writer := SwapTail(nx, false))
  {
    var s := g.end;
    var pushed := SetLink(s, nx, Link(newHead, Head)).(ring := s.ring[1..] + [s.ring[0]]);
    h := Go(g, Write(false), pushed.(writer := SetNormal(nx)));
    h := Go(h, Write(false), SetLink(pushed, s.tailPage, Link(nx, Normal)).(writer := SwapTail(nx, false)));
  }

  // The second load of the test says that the commit page is outside the ring, and the writer lets it pass.
  lemma Pass(g: Trail) returns (h: Trail)
    requires Sound(g) && g.end.writer.ReaderTestNext? && g.end.next[g.end.writer.p].to != g.end.commitPage
    requires g.end.commitPage == g.end.tailPage || g.end.commitPage != g.end.readerPage
    requires g.rule.prompt ==> g.end.commitPage == g.end.tailPage || !Swapped(g.end.reader)
    ensures Continues(g, h) && h.end == g.end.(writer := SwapTail(g.end.writer.nx, true))
  {
    var nx := g.end.writer.nx;
    h := Go(g, Write(false), g.end.(writer := TestReader(nx)));
    h := Go(h, Write(false), g.end.(writer := SwapTail(nx, true)));
  }

  // The writer moves its tail and begins to commit.
  lemma Arrive(g: Trail) returns (h: Trail)
    requires Sound(g) && g.end.writer.SwapTail? && g.end.writer.nx != g.end.commitPage
    ensures Continues(g, h) && h.end == g.end.(tailPage := g.end.writer.nx, writer := CommitTestPrev)
  {
    var nx := g.end.writer.nx;
    h := Go(g, Write(true), g.end.(tailPage := nx, writer := CommitCompare));
    h := Go(h, Write(true), g.end.(tailPage := nx, writer := CommitTestPrev));
  }

  // The writer finds its tail page outside the ring.
  lemma Trip(g: Trail) returns (h: Trail)
    requires Sound(g) && g.end.writer == CommitTestPrev && g.end.next[g.end.prev[g.end.tailPage]].to != g.end.tailPage
    ensures Continues(g, h) && h.end.writer == Warned(false)
  {
    h := Go(g, Write(true), g.end.(writer := CommitTestNext(g.end.prev[g.end.tailPage])));
    h := Go(h, Write(true), g.end.(writer := Warned(false)));
  }

  // The writer moves its tail, finds no room, and loads the next link.
  lemma LookOn(g: Trail, nx: nat, on: nat) returns (h: Trail)
    requires Sound(g) && g.end.writer.SwapTail? && g.end.writer.nx == nx && !g.rule.once
    requires g.end.next[nx].to == on != g.end.commitPage
    ensures Continues(g, h) && h.end == g.end.(tailPage := nx, writer := TestHead(on))
  {
    h := Go(g, Write(false), g.end.(tailPage := nx, writer := ReadNext));
    h := Go(h, Write(false), g.end.(tailPage := nx, writer := TestHead(on)));
  }

  /// The reader

  // The reader on its way after `i` steps: it swaps its page `e` for the head page `a`, between `d` and `b`.
  ghost function SwappingIn(s: State, a: nat, b: nat, d: nat, e: nat, i: nat): State
    requires s.ring != [] && i <= 9
  {
    var copied := if i < 5 then s.next else s.next[e := Link(b, Normal)];
    var flagged := if i < 7 then copied else copied[e := Link(b, Head)];
    s.(next := if i < 9 then flagged else flagged[d := Link(e, Normal)],
       prev := if i < 6 then s.prev else s.prev[e := d],
       ring := if i < 9 then s.ring else s.ring[1..] + [e],
       reader := [Out, CheckCommit, ScanPrev(a), ScanNext(a, d), CopyNext(a), CopyPrev(a), SetHeadFlag(a), LoadLink(a),
                  Replace(a, d, a), FixPrev(a)][i])
  }

  ghost predicate CanSwap(s: State, a: nat, b: nat, d: nat, e: nat) {
    && Ready(s) && a != d && d != e && e != a
    && s.next[a].to == b && s.prev[a] == d && s.next[d] == Link(a, Head)
    && s.headPage == a && s.readerPage == e && s.commitPage != e
  }

  lemma SwappingInStep(s: State, a: nat, b: nat, d: nat, e: nat, i: nat)
    requires CanSwap(s, a, b, d, e) && i < 9
    ensures var t := SwappingIn(s, a, b, d, e, i); Ready(t) && ReaderStep(t, false) == SwappingIn(s, a, b, d, e, i + 1)
  {
  }

  lemma SwapIn(g: Trail, s: State, a: nat, b: nat, d: nat, e: nat, i: nat, j: nat) returns (h: Trail)
    requires Sound(g) && CanSwap(s, a, b, d, e) && i <= j <= 9 && g.end == SwappingIn(s, a, b, d, e, i)
    requires g.rule.sparing ==> !MidTest(s.writer)
    ensures Continues(g, h) && h.end == SwappingIn(s, a, b, d, e, j)
  {
    h := g;
    for k := i to j
      invariant Continues(g, h) && h.end == SwappingIn(s, a, b, d, e, k)
    {
      SwappingInStep(s, a, b, d, e, k);
      h := Go(h, Read(false), SwappingIn(s, a, b, d, e, k + 1));
    }
  }

  // The reader makes the page it took its own.
  lemma Finish(g: Trail, a: nat) returns (h: Trail)
    requires Sound(g) && g.end.reader == FixPrev(a) && g.end.headPage == a
    ensures Continues(g, h)
    ensures var b := g.end.next[a].to;
            h.end == g.end.(prev := g.end.prev[b := g.end.readerPage], headPage := b, readerPage := a, reader := Out)
  {
    var b, s := g.end.next[a].to, g.end;
    var fixed := s.(prev := s.prev[b := s.readerPage]);
    h := Go(g, Read(false), fixed.(reader := IncHead(a)));
    h := Go(h, Read(false), fixed.(headPage := b, reader := Take(a)));
    h := Go(h, Read(false), fixed.(headPage := b, readerPage := a, reader := Out));
  }

  // The reader finds that page `b` is not the head page any more, but the next one `c` is.
  lemma Scan(g: Trail, b: nat, c: nat) returns (h: Trail)
    requires Sound(g) && g.end.reader == Out && g.end.commitPage != g.end.readerPage && g.end.headPage == b
    requires g.end.next[g.end.prev[b]] == Link(b, Normal) && g.end.next[b] == Link(c, Head) && g.end.prev[c] == b
    ensures Continues(g, h) && h.end == g.end.(headPage := c, reader := CopyNext(c))
  {
    var s := g.end;
    h := Go(g, Read(false), s.(reader := CheckCommit));
    h := Go(h, Read(false), s.(reader := ScanPrev(b)));
    h := Go(h, Read(false), s.(reader := ScanNext(b, s.prev[b])));
    h := Go(h, Read(false), s.(reader := ScanInc(b)));
    h := Go(h, Read(false), s.(reader := ScanPrev(c)));
    h := Go(h, Read(false), s.(reader := ScanNext(c, b)));
    h := Go(h, Read(false), s.(headPage := c, reader := CopyNext(c)));
  }
}
