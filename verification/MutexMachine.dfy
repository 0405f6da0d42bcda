/**
 * Threads on one bionic mutex.  Each step is one atomic operation on the lock word (load, compare and
 * exchange, swap, decrement, store, futex wait, futex wake) with the local code up to the next one;
 * a run interleaves the steps of any number of threads in any order.
 */
module MutexMachine {
  import opened MutexWord

  // Kernel thread ids fit the owner field and are not 0.
  datatype ThreadId = ThreadId(id: bv16)
  type Tid = t: ThreadId | t.id != 0 witness ThreadId(1)

  const NORMAL: bv2 := 0
  const RECURSIVE: bv2 := 1
  const ERRORCHECK: bv2 := 2

  datatype Code = Ok | EDEADLK | EAGAIN | EPERM | EBUSY | ETIMEDOUT

  datatype Op = Lock | TimedLock | Trylock | Unlock

  // Where a thread is: N for normal mutexes, R for recursive and errorcheck ones.  `mv` is the value
  // the thread loaded last.
  datatype PC<V> =
    | Idle
    | NTry(timed: bool) | NSwap(timed: bool) | NWait(timed: bool) | NSleep(timed: bool) | NTrylock
    | NDec | NStore | NWake
    | RIncr(mv: V) | RIncrLoad
    | RFast(timed: bool) | RLoad(timed: bool) | RLoop(mv: V, timed: bool) | RFlipLoad
    | RWait(mv: V, timed: bool) | RSleep(timed: bool) | RTrylock
    | RDecr(mv: V) | RDecrLoad | RSwap | RWake

  // `base` is the type and shared bits of the word, read at the start of the operation.  `locks` counts
  // the locks the thread has been granted and has not given back; `ret` is what its last call returned.
  datatype Thread<V> = Thread(pc: PC<V>, base: V, locks: int, ret: Code)

  // What a step does to the word and to the thread itself, and whether it wakes a sleeper.
  datatype Effect<V> = Effect(value: V, thread: Thread<V>, wakes: bool)

  datatype State<V> = State(value: V, last: Tid, threads: map<Tid, Thread<V>>)

  // The scheduler's choice: the thread, the call it makes when idle, whether its time is up (or its
  // sleep times out), and the sleeper that a wake picks.
  datatype Choice = Choice(t: Tid, op: Op, expired: bool, victim: Tid)

  predicate Asleep<V>(pc: PC<V>) {
    pc.NSleep? || pc.RSleep?
  }

  function Goto<V>(value: V, th: Thread<V>, pc: PC<V>): Effect<V> {
    Effect(value, th.(pc := pc), false)
  }

  function Return<V>(value: V, th: Thread<V>, code: Code): Effect<V> {
    Effect(value, th.(pc := Idle, ret := code), false)
  }

  function Acquire<V>(value: V, th: Thread<V>): Effect<V> {
    Effect(value, th.(pc := Idle, locks := th.locks + 1, ret := Ok), false)
  }

  function Release<V>(value: V, th: Thread<V>, pc: PC<V>): Effect<V> {
    Effect(value, th.(pc := pc, locks := th.locks - 1, ret := Ok), false)
  }

  // The value of a mutex of the type of `base` held by `t`.
  function Owned(base: Word, t: Tid, state: bv2): Word {
    base.(owner := t.id, state := state)
  }

  /// One step of one thread

  // The caller of a lock or trylock that already owns the mutex (_recursive_increment up to its loop).
  function Relock(w: Word, th: Thread<Word>): Effect<Word> {
    if w.kind == ERRORCHECK then Return(w, th, EDEADLK)
    else if w.counter == COUNTER_MAX then Return(w, th, EAGAIN)
    else Goto(w, th, RIncr(w))
  }

  // The first load of a call.  A normal mutex is unlocked only by its holder, as its contract demands.
  function Start(w: Word, t: Tid, idle: Thread<Word>, op: Op): Effect<Word> {
    var th := idle.(base := Unlocked(w.kind, w.shared));
    var timed := op == TimedLock;
    match op
    case Lock | TimedLock =>
      if w.kind == NORMAL then Goto(w, th, NTry(timed))
      else if w.owner == t.id then Relock(w, th)
      else if w == th.base then Goto(w, th, RFast(timed))
      else Goto(w, th, RLoop(w, timed))
    case Trylock =>
      if w.kind == NORMAL then Goto(w, th, NTrylock)
      else if w.owner == t.id then Relock(w, th)
      else Goto(w, th, RTrylock)
    case Unlock =>
      if w.kind == NORMAL then (if th.locks > 0 then Goto(w, th, NDec) else Goto(w, th, Idle))
      else if w.owner != t.id then Return(w, th, EPERM)
      else if w.counter != 0 then Goto(w, th, RDecr(w))
      else Goto(w, th, RSwap)
  }

  function NormalStep(w: Word, th: Thread<Word>, expired: bool): Effect<Word>
    requires NormalPc(th.pc)
  {
    var unlocked := th.base;
    var uncontended := th.base.(state := LOCKED_UNCONTENDED);
    var contended := th.base.(state := LOCKED_CONTENDED);
    match th.pc
    case NTry(timed) => if w == unlocked then Acquire(uncontended, th) else Goto(w, th, NSwap(timed))
    case NSwap(timed) => if w == unlocked then Acquire(contended, th) else Goto(contended, th, NWait(timed))
    case NWait(timed) =>
      if timed && expired then Return(w, th, ETIMEDOUT)
      else if w == contended then Goto(w, th, NSleep(timed))
      else Goto(w, th, NSwap(timed))
    case NSleep(timed) => Goto(w, th, NSwap(timed))
    case NTrylock => if w == unlocked then Acquire(uncontended, th) else Return(w, th, EBUSY)
    case NDec =>
      var w' := w.(state := w.state - 1);
      if w == uncontended then Release(w', th, Idle) else Goto(w', th, NStore)
    case NStore => Release(unlocked, th, NWake)
    case NWake => Effect(w, th.(pc := Idle, ret := Ok), true)
  }

  function LoopStep(w: Word, t: Tid, th: Thread<Word>, mv: Word, timed: bool, expired: bool): Effect<Word> {
    if mv == th.base then
      if w == mv then Acquire(Owned(th.base, t, LOCKED_CONTENDED), th)
      else if timed && expired then Return(w, th, ETIMEDOUT)
      else Goto(w, th, RLoad(timed))
    else if mv.state == LOCKED_UNCONTENDED then
      var flipped := mv.(state := LOCKED_CONTENDED);
      if w == mv then Goto(flipped, th, RWait(flipped, timed))
      else if timed then Goto(w, th, RFlipLoad)
      else Goto(w, th, RLoad(timed))
    else Goto(w, th, RWait(mv, timed))
  }

  function WaitStep(w: Word, th: Thread<Word>, mv: Word, timed: bool, expired: bool): Effect<Word> {
    if timed && expired then Return(w, th, ETIMEDOUT)
    else if timed && mv.state != LOCKED_CONTENDED then Goto(w, th, RLoop(mv, timed))
    else if w == mv then Goto(w, th, RSleep(timed))
    else Goto(w, th, RLoad(timed))
  }

  // The way into a recursive or errorcheck mutex that the thread does not hold.
  function EnterStep(w: Word, t: Tid, th: Thread<Word>, expired: bool): Effect<Word>
    requires EnterPc(th.pc)
  {
    match th.pc
    case RFast(timed) =>
      if w == th.base then Acquire(Owned(th.base, t, LOCKED_UNCONTENDED), th) else Goto(w, th, RLoad(timed))
    case RLoad(timed) => Goto(w, th, RLoop(w, timed))
    case RLoop(mv, timed) => LoopStep(w, t, th, mv, timed, expired)
    case RFlipLoad => Goto(w, th, RWait(w, true))
    case RWait(mv, timed) => WaitStep(w, th, mv, timed, expired)
    case RSleep(timed) => if timed && expired then Return(w, th, ETIMEDOUT) else Goto(w, th, RLoad(timed))
    case RTrylock =>
      if w == th.base then Acquire(Owned(th.base, t, LOCKED_UNCONTENDED), th) else Return(w, th, EBUSY)
  }

  // The holder of a recursive or errorcheck mutex changing its count, and its way out.
  function HolderStep(w: Word, th: Thread<Word>): Effect<Word>
    requires HolderPc(th.pc)
  {
    match th.pc
    case RIncr(mv) =>
      if w == mv then Acquire(mv.(counter := mv.counter + 1), th) else Goto(w, th, RIncrLoad)
    case RIncrLoad => Goto(w, th, RIncr(w))
    case RDecr(mv) =>
      if w == mv then Release(mv.(counter := mv.counter - 1), th, Idle) else Goto(w, th, RDecrLoad)
    case RDecrLoad => Goto(w, th, RDecr(w))
    case RSwap => Release(th.base, th, if w.state == LOCKED_CONTENDED then RWake else Idle)
    case RWake => Effect(w, th.(pc := Idle, ret := Ok), true)
  }

  predicate NormalPc<V>(pc: PC<V>) {
    pc.NTry? || pc.NSwap? || pc.NWait? || pc.NSleep? || pc.NTrylock? || pc.NDec? || pc.NStore? || pc.NWake?
  }

  predicate EnterPc<V>(pc: PC<V>) {
    pc.RFast? || pc.RLoad? || pc.RLoop? || pc.RFlipLoad? || pc.RWait? || pc.RSleep? || pc.RTrylock?
  }

  predicate HolderPc<V>(pc: PC<V>) {
    pc.RIncr? || pc.RIncrLoad? || pc.RDecr? || pc.RDecrLoad? || pc.RSwap? || pc.RWake?
  }

  function LocalStep(w: Word, t: Tid, th: Thread<Word>, op: Op, expired: bool): Effect<Word> {
    if th.pc.Idle? then Start(w, t, th, op)
    else if NormalPc(th.pc) then NormalStep(w, th, expired)
    else if EnterPc(th.pc) then EnterStep(w, t, th, expired)
    else HolderStep(w, th)
  }

  /// One step of the system

  function Woken<V>(th: Thread<V>): Thread<V> {
    match th.pc
    case NSleep(timed) => th.(pc := NSwap(timed))
    case RSleep(timed) => th.(pc := RLoad(timed))
    case _ => th
  }

  ghost predicate SomeAsleep<V>(s: State<V>) {
    exists u | u in s.threads :: Asleep(s.threads[u].pc)
  }

  // A wake picks a sleeper when there is one.
  ghost predicate CanApply<V>(s: State<V>, e: Effect<V>, victim: Tid) {
    e.wakes && SomeAsleep(s) ==> victim in s.threads && Asleep(s.threads[victim].pc)
  }

  function LastAfter<V>(last: Tid, t: Tid, th: Thread<V>, e: Effect<V>): Tid {
    if e.thread.locks > th.locks then t else last
  }

  function Apply<V>(s: State<V>, t: Tid, e: Effect<V>, victim: Tid): State<V>
    requires t in s.threads
  {
    var threads := if e.wakes && victim in s.threads then s.threads[victim := Woken(s.threads[victim])] else s.threads;
    State(e.value, LastAfter(s.last, t, s.threads[t], e), threads[t := e.thread])
  }

  ghost function Step(s: State<Word>, c: Choice): State<Word> {
    if c.t !in s.threads then s
    else
      var e := LocalStep(s.value, c.t, s.threads[c.t], c.op, c.expired);
      if CanApply(s, e, c.victim) then Apply(s, c.t, e, c.victim) else s
  }

  ghost function Exec(s: State<Word>, run: seq<Choice>): State<Word>
    decreases |run|
  {
    if run == [] then s else Step(Exec(s, run[..|run| - 1]), run[|run| - 1])
  }

  predicate GoodKind(kind: bv2) {
    kind == NORMAL || kind == RECURSIVE || kind == ERRORCHECK
  }

  ghost function Init(kind: bv2, shared: bv1, tids: set<Tid>): State<Word> {
    var w := Unlocked(kind, shared);
    State(w, ThreadId(1), map t | t in tids :: Thread(Idle, w, 0, Ok))
  }

  /// The invariant

  predicate Holds(w: Word, last: Tid, t: Tid) {
    w.state != UNLOCKED && t == last
  }

  ghost predicate WordOk(w: Word, last: Tid, tids: set<Tid>) {
    && GoodKind(w.kind) && w.state != 3
    && (w.state == UNLOCKED ==> w == Unlocked(w.kind, w.shared))
    && (w.state != UNLOCKED ==> last in tids && (if w.kind == NORMAL then w.owner == 0 else w.owner == last.id))
    && (w.kind != RECURSIVE ==> w.counter == 0)
  }

  // A value the word may have had.
  predicate ValueOk(w: Word, mv: Word) {
    && mv.kind == w.kind && mv.shared == w.shared && mv.state != 3
    && (mv.state == UNLOCKED ==> mv == Unlocked(mv.kind, mv.shared))
  }

  predicate PcOk(w: Word, last: Tid, t: Tid, pc: PC<Word>) {
    match pc
    case Idle => true
    case NTry(_) | NSwap(_) | NWait(_) | NSleep(_) | NTrylock | NWake => w.kind == NORMAL
    case NDec | NStore => w.kind == NORMAL && Holds(w, last, t)
    case RIncr(mv) =>
      w.kind == RECURSIVE && Holds(w, last, t) && w.counter != COUNTER_MAX
      && ValueOk(w, mv) && mv.owner == t.id && mv.counter == w.counter
    case RIncrLoad => w.kind == RECURSIVE && Holds(w, last, t) && w.counter != COUNTER_MAX
    case RFast(_) | RLoad(_) | RSleep(_) | RFlipLoad | RTrylock => w.kind != NORMAL && !Holds(w, last, t)
    case RLoop(mv, _) => w.kind != NORMAL && !Holds(w, last, t) && ValueOk(w, mv)
    case RWait(mv, timed) =>
      w.kind != NORMAL && !Holds(w, last, t) && ValueOk(w, mv) && (timed || mv.state == LOCKED_CONTENDED)
    case RDecr(mv) =>
      w.kind != NORMAL && Holds(w, last, t) && w.counter != 0
      && ValueOk(w, mv) && mv.owner == t.id && mv.counter == w.counter
    case RDecrLoad => w.kind != NORMAL && Holds(w, last, t) && w.counter != 0
    case RSwap => w.kind != NORMAL && Holds(w, last, t) && w.counter == 0
    case RWake => w.kind != NORMAL
  }

  predicate ThreadOk(w: Word, last: Tid, t: Tid, th: Thread<Word>) {
    && PcOk(w, last, t, th.pc)
    && (!th.pc.Idle? ==> th.base == Unlocked(w.kind, w.shared))
    && (th.locks > 0 <==> Holds(w, last, t))
  }

  // The locks that the word grants to `t`.
  function Granted(w: Word, last: Tid, t: Tid): int {
    if Holds(w, last, t) then w.counter as int + 1 else 0
  }

  predicate LocksOk(w: Word, last: Tid, t: Tid, th: Thread<Word>) {
    th.locks == Granted(w, last, t)
  }

  ghost predicate Inv(s: State<Word>) {
    && WordOk(s.value, s.last, s.threads.Keys)
    && (forall t | t in s.threads :: ThreadOk(s.value, s.last, t, s.threads[t]))
    && (forall t | t in s.threads :: LocksOk(s.value, s.last, t, s.threads[t]))
  }

  // A change of the word by `t` that takes nothing from and gives nothing to another thread.
  ghost predicate Fair(w: Word, last: Tid, w': Word, last': Tid, t: Tid) {
    && w'.kind == w.kind && w'.shared == w.shared
    && (forall u: Tid | u != t :: Holds(w', last', u) <==> Holds(w, last, u))
    && (w.state != UNLOCKED && last != t ==> w' == w || w' == w.(state := LOCKED_CONTENDED))
  }

  ghost predicate LocalOk(w: Word, last: Tid, tids: set<Tid>, t: Tid, th: Thread<Word>, e: Effect<Word>) {
    var last' := LastAfter(last, t, th, e);
    && WordOk(e.value, last', tids)
    && ThreadOk(e.value, last', t, e.thread)
    && Fair(w, last, e.value, last', t)
    && Counted(w, last, t, th, e)
  }

  // How a step of `t` changes the locks of `t`.
  predicate Counted(w: Word, last: Tid, t: Tid, th: Thread<Word>, e: Effect<Word>) {
    var last' := LastAfter(last, t, th, e);
    if e.thread.locks == th.locks then
      Holds(e.value, last', t) == Holds(w, last, t) && e.value.counter == w.counter
    else if e.thread.locks == th.locks + 1 then
      if Holds(w, last, t) then w.counter != COUNTER_MAX && Holds(e.value, last', t) && e.value.counter == w.counter + 1
      else Holds(e.value, last', t) && e.value.counter == 0
    else
      && e.thread.locks == th.locks - 1
      && Holds(w, last, t)
      && if w.counter == 0 then !Holds(e.value, last', t)
         else Holds(e.value, last', t) && e.value.counter == w.counter - 1
  }

  // A step that leaves the word and the locks alone.
  predicate Stays(w: Word, last: Tid, t: Tid, th: Thread<Word>, e: Effect<Word>) {
    && e.value == w && e.thread.locks == th.locks && PcOk(w, last, t, e.thread.pc)
    && (!e.thread.pc.Idle? ==> e.thread.base == Unlocked(w.kind, w.shared))
  }

  lemma StaysOk(w: Word, last: Tid, tids: set<Tid>, t: Tid, th: Thread<Word>, e: Effect<Word>)
    requires WordOk(w, last, tids) && ThreadOk(w, last, t, th) && Stays(w, last, t, th, e)
    ensures LocalOk(w, last, tids, t, th, e)
  {
  }

  lemma StartOk(w: Word, last: Tid, tids: set<Tid>, t: Tid, th: Thread<Word>, op: Op)
    requires t in tids && WordOk(w, last, tids) && ThreadOk(w, last, t, th) && th.pc.Idle?
    ensures LocalOk(w, last, tids, t, th, Start(w, t, th, op))
  {
    StaysOk(w, last, tids, t, th, Start(w, t, th, op));
  }

  lemma NormalStepOk(w: Word, last: Tid, tids: set<Tid>, t: Tid, th: Thread<Word>, expired: bool)
    requires t in tids && WordOk(w, last, tids) && ThreadOk(w, last, t, th) && NormalPc(th.pc)
    requires 0 <= th.locks <= 1
    ensures LocalOk(w, last, tids, t, th, NormalStep(w, th, expired))
  {
  }

  // A free word is taken.
  lemma TakeOk(w: Word, last: Tid, tids: set<Tid>, t: Tid, th: Thread<Word>, state: bv2)
    requires t in tids && WordOk(w, last, tids) && w.kind != NORMAL && w == th.base == Unlocked(w.kind, w.shared)
    requires th.locks == 0 && (state == LOCKED_UNCONTENDED || state == LOCKED_CONTENDED)
    ensures LocalOk(w, last, tids, t, th, Acquire(Owned(th.base, t, state), th))
  {
  }

  // Another thread's word is marked contended.
  lemma FlipOk(w: Word, last: Tid, tids: set<Tid>, t: Tid, th: Thread<Word>, timed: bool)
    requires WordOk(w, last, tids) && ThreadOk(w, last, t, th) && PcOk(w, last, t, RLoop(w, timed))
    requires th.locks == 0 && !th.pc.Idle? && w.state == LOCKED_UNCONTENDED
    ensures var flipped := w.(state := LOCKED_CONTENDED); LocalOk(w, last, tids, t, th, Goto(flipped, th, RWait(flipped, timed)))
  {
  }

  lemma LoopStepOk(w: Word, last: Tid, tids: set<Tid>, t: Tid, th: Thread<Word>, mv: Word, timed: bool, expired: bool)
    requires t in tids && WordOk(w, last, tids) && ThreadOk(w, last, t, th) && th.pc == RLoop(mv, timed)
    requires th.locks == 0
    ensures LocalOk(w, last, tids, t, th, LoopStep(w, t, th, mv, timed, expired))
  {
    if w != mv || (mv != th.base && mv.state != LOCKED_UNCONTENDED) {
      StaysOk(w, last, tids, t, th, LoopStep(w, t, th, mv, timed, expired));
    } else if mv == th.base {
      TakeOk(w, last, tids, t, th, LOCKED_CONTENDED);
    } else {
      FlipOk(w, last, tids, t, th, timed);
    }
  }

  lemma EnterStepOk(w: Word, last: Tid, tids: set<Tid>, t: Tid, th: Thread<Word>, expired: bool)
    requires t in tids && WordOk(w, last, tids) && ThreadOk(w, last, t, th) && EnterPc(th.pc)
    requires th.locks == 0
    ensures LocalOk(w, last, tids, t, th, EnterStep(w, t, th, expired))
  {
    if th.pc.RLoop? {
      LoopStepOk(w, last, tids, t, th, th.pc.mv, th.pc.timed, expired);
    } else if (th.pc.RFast? || th.pc.RTrylock?) && w == th.base {
      TakeOk(w, last, tids, t, th, LOCKED_UNCONTENDED);
    } else {
      StaysOk(w, last, tids, t, th, EnterStep(w, t, th, expired));
    }
  }

  lemma CountUpOk(w: Word, last: Tid, tids: set<Tid>, t: Tid, th: Thread<Word>)
    requires t in tids && WordOk(w, last, tids) && w.kind == RECURSIVE && Holds(w, last, t)
    requires w.counter != COUNTER_MAX && th.locks > 0
    ensures LocalOk(w, last, tids, t, th, Acquire(w.(counter := w.counter + 1), th))
  {
  }

  lemma CountDownOk(w: Word, last: Tid, tids: set<Tid>, t: Tid, th: Thread<Word>)
    requires t in tids && WordOk(w, last, tids) && w.kind == RECURSIVE && Holds(w, last, t)
    requires w.counter != 0 && th.locks > 1
    ensures LocalOk(w, last, tids, t, th, Release(w.(counter := w.counter - 1), th, Idle))
  {
  }

  lemma CountStepOk(w: Word, last: Tid, tids: set<Tid>, t: Tid, th: Thread<Word>)
    requires t in tids && WordOk(w, last, tids) && ThreadOk(w, last, t, th) && (th.pc.RIncr? || th.pc.RDecr?)
    requires th.pc.RDecr? ==> th.locks > 1
    ensures LocalOk(w, last, tids, t, th, HolderStep(w, th))
  {
    if w == th.pc.mv {
      if th.pc.RIncr? {
        CountUpOk(w, last, tids, t, th);
      } else {
        CountDownOk(w, last, tids, t, th);
      }
    } else {
      StaysOk(w, last, tids, t, th, HolderStep(w, th));
    }
  }

  lemma LeaveStepOk(w: Word, last: Tid, tids: set<Tid>, t: Tid, th: Thread<Word>)
    requires t in tids && WordOk(w, last, tids) && ThreadOk(w, last, t, th)
    requires HolderPc(th.pc) && !th.pc.RIncr? && !th.pc.RDecr? && (th.pc.RSwap? ==> th.locks == 1)
    ensures LocalOk(w, last, tids, t, th, HolderStep(w, th))
  {
  }

  lemma LocalStepOk(w: Word, last: Tid, tids: set<Tid>, t: Tid, th: Thread<Word>, op: Op, expired: bool)
    requires t in tids && WordOk(w, last, tids) && ThreadOk(w, last, t, th) && LocksOk(w, last, t, th)
    ensures LocalOk(w, last, tids, t, th, LocalStep(w, t, th, op, expired))
  {
    CounterCounts(w.counter);
    if th.pc.Idle? {
      StartOk(w, last, tids, t, th, op);
    } else if NormalPc(th.pc) {
      NormalStepOk(w, last, tids, t, th, expired);
    } else if EnterPc(th.pc) {
      EnterStepOk(w, last, tids, t, th, expired);
    } else if th.pc.RIncr? || th.pc.RDecr? {
      CountStepOk(w, last, tids, t, th);
    } else {
      LeaveStepOk(w, last, tids, t, th);
    }
  }

  // Counting as `Counted` says keeps the number of granted locks equal to the counter plus one.
  lemma CountedOk(w: Word, last: Tid, t: Tid, th: Thread<Word>, e: Effect<Word>)
    requires Counted(w, last, t, th, e) && LocksOk(w, last, t, th)
    ensures LocksOk(e.value, LastAfter(last, t, th, e), t, e.thread)
  {
    CounterCounts(w.counter);
    CounterCounts(0);
  }

  // The other threads, asleep, woken or running, still stand where they may.
  // What another thread knows of the word survives the step.
  lemma PcStays(w: Word, last: Tid, w': Word, last': Tid, t: Tid, u: Tid, pc: PC<Word>)
    requires u != t && PcOk(w, last, u, pc) && Fair(w, last, w', last', t)
    ensures PcOk(w', last', u, pc)
  {
    assert Holds(w', last', u) <==> Holds(w, last, u);
  }

  lemma OthersOk(w: Word, last: Tid, w': Word, last': Tid, t: Tid, u: Tid, th: Thread<Word>)
    requires u != t && ThreadOk(w, last, u, th) && LocksOk(w, last, u, th) && Fair(w, last, w', last', t)
    ensures ThreadOk(w', last', u, th) && ThreadOk(w', last', u, Woken(th)) && LocksOk(w', last', u, th)
  {
    assert Holds(w', last', u) <==> Holds(w, last, u);
    PcStays(w, last, w', last', t, u, th.pc);
  }

  predicate SameMutex(s: State<Word>, s': State<Word>) {
    s'.value.kind == s.value.kind && s'.value.shared == s.value.shared && s'.threads.Keys == s.threads.Keys
  }

  lemma ApplyKeeps(s: State<Word>, t: Tid, e: Effect<Word>, victim: Tid)
    requires Inv(s) && t in s.threads
    requires LocalOk(s.value, s.last, s.threads.Keys, t, s.threads[t], e)
    ensures Inv(Apply(s, t, e, victim)) && SameMutex(s, Apply(s, t, e, victim))
  {
    var s' := Apply(s, t, e, victim);
    assert s'.threads.Keys == s.threads.Keys;
    forall u | u in s'.threads
      ensures ThreadOk(s'.value, s'.last, u, s'.threads[u]) && LocksOk(s'.value, s'.last, u, s'.threads[u])
    {
      if u == t {
        CountedOk(s.value, s.last, t, s.threads[t], e);
      } else {
        OthersOk(s.value, s.last, s'.value, s'.last, t, u, s.threads[u]);
      }
    }
  }

  lemma StepKeeps(s: State<Word>, c: Choice)
    requires Inv(s)
    ensures Inv(Step(s, c)) && SameMutex(s, Step(s, c))
  {
    if c.t in s.threads {
      var e := LocalStep(s.value, c.t, s.threads[c.t], c.op, c.expired);
      LocalStepOk(s.value, s.last, s.threads.Keys, c.t, s.threads[c.t], c.op, c.expired);
      ApplyKeeps(s, c.t, e, c.victim);
    }
  }

  lemma {:induction false} RunKeeps(kind: bv2, shared: bv1, tids: set<Tid>, run: seq<Choice>)
    requires GoodKind(kind)
    ensures var s := Exec(Init(kind, shared, tids), run);
            Inv(s) && s.value.kind == kind && s.value.shared == shared && s.threads.Keys == tids
    decreases |run|
  {
    var s0 := Init(kind, shared, tids);
    if run != [] {
      var s, c := Exec(s0, run[..|run| - 1]), run[|run| - 1];
      RunKeeps(kind, shared, tids, run[..|run| - 1]);
      StepKeeps(s, c);
    }
  }

  /// Who holds the mutex

  /** In every run, whatever calls are made and however they interleave, no two threads hold the mutex. */
  lemma MutualExclusion(kind: bv2, shared: bv1, tids: set<Tid>, run: seq<Choice>, t: Tid, u: Tid)
    requires GoodKind(kind) && t in tids && u in tids
    ensures var s := Exec(Init(kind, shared, tids), run);
            t in s.threads && u in s.threads && (s.threads[t].locks > 0 && s.threads[u].locks > 0 ==> t == u)
  {
    RunKeeps(kind, shared, tids, run);
  }

  /** In every run the word is the unlocked value exactly when nobody holds the mutex.  On a recursive or
      errorcheck mutex the owner field is the holder's id and the counter is its locks minus one. */
  lemma WordTellsTheHolder(kind: bv2, shared: bv1, tids: set<Tid>, run: seq<Choice>)
    requires GoodKind(kind)
    ensures var s := Exec(Init(kind, shared, tids), run);
            && s.threads.Keys == tids
            && (s.value == Unlocked(kind, shared) <==> forall t | t in tids :: s.threads[t].locks == 0)
            && (forall t | t in tids :: 0 <= s.threads[t].locks <= (if kind == RECURSIVE then 2048 else 1))
            && (kind != NORMAL ==> forall t | t in tids ::
                  && (s.threads[t].locks > 0 <==> s.value.owner == t.id)
                  && (s.threads[t].locks > 0 ==> s.threads[t].locks == s.value.counter as int + 1))
  {
    RunKeeps(kind, shared, tids, run);
    var s := Exec(Init(kind, shared, tids), run);
    CounterCounts(s.value.counter);
    if s.value.state != UNLOCKED {
      assert s.threads[s.last].locks > 0;
    }
    forall t | t in tids
      ensures 0 <= s.threads[t].locks <= (if kind == RECURSIVE then 2048 else 1)
      ensures kind != NORMAL ==> (s.threads[t].locks > 0 <==> s.value.owner == t.id)
    {
      assert ThreadOk(s.value, s.last, t, s.threads[t]) && LocksOk(s.value, s.last, t, s.threads[t]);
    }
  }

  // The call of `th` ends with this step.
  predicate Returns(th: Thread<Word>, e: Effect<Word>, op: Op, kind: bv2) {
    e.thread.pc.Idle? && !(th.pc.Idle? && op == Unlock && kind == NORMAL)
  }

  predicate CodeTrue(w: Word, th: Thread<Word>, e: Effect<Word>) {
    var n := th.locks;
    match e.thread.ret
    case Ok => if e.wakes then e.thread.locks == n else e.thread.locks == n + 1 || e.thread.locks == n - 1
    case EDEADLK => w.kind == ERRORCHECK && n == e.thread.locks == 1
    case EAGAIN => w.kind == RECURSIVE && n == e.thread.locks == 2048
    case EPERM => w.kind != NORMAL && n == e.thread.locks == 0
    case EBUSY => n == e.thread.locks && w.state != UNLOCKED
    case ETIMEDOUT => n == e.thread.locks
  }

  lemma StartCode(w: Word, last: Tid, tids: set<Tid>, t: Tid, th: Thread<Word>, op: Op)
    requires WordOk(w, last, tids) && ThreadOk(w, last, t, th) && LocksOk(w, last, t, th) && th.pc.Idle?
    ensures var e := Start(w, t, th, op); Returns(th, e, op, w.kind) ==> CodeTrue(w, th, e)
  {
    CounterCounts(w.counter);
  }

  lemma NormalCode(w: Word, last: Tid, tids: set<Tid>, t: Tid, th: Thread<Word>, expired: bool)
    requires WordOk(w, last, tids) && ThreadOk(w, last, t, th) && NormalPc(th.pc)
    ensures var e := NormalStep(w, th, expired); e.thread.pc.Idle? ==> CodeTrue(w, th, e)
  {
  }

  lemma EnterCode(w: Word, last: Tid, tids: set<Tid>, t: Tid, th: Thread<Word>, expired: bool)
    requires WordOk(w, last, tids) && ThreadOk(w, last, t, th) && EnterPc(th.pc)
    ensures var e := EnterStep(w, t, th, expired); e.thread.pc.Idle? ==> CodeTrue(w, th, e)
  {
  }

  lemma HolderCode(w: Word, th: Thread<Word>)
    requires HolderPc(th.pc)
    ensures var e := HolderStep(w, th); e.thread.pc.Idle? ==> CodeTrue(w, th, e)
  {
  }

  /** What a call returns is true of the mutex at the moment it is decided. */
  lemma ReturnsAreTrue(s: State<Word>, t: Tid, op: Op, expired: bool)
    requires Inv(s) && t in s.threads
    ensures var th := s.threads[t];
            var e := LocalStep(s.value, t, th, op, expired);
            Returns(th, e, op, s.value.kind) ==> CodeTrue(s.value, th, e)
  {
    var th := s.threads[t];
    assert ThreadOk(s.value, s.last, t, th) && LocksOk(s.value, s.last, t, th);
    if th.pc.Idle? {
      StartCode(s.value, s.last, s.threads.Keys, t, th, op);
    } else if NormalPc(th.pc) {
      NormalCode(s.value, s.last, s.threads.Keys, t, th, expired);
    } else if EnterPc(th.pc) {
      EnterCode(s.value, s.last, s.threads.Keys, t, th, expired);
    } else {
      HolderCode(s.value, th);
    }
  }

  /** The immediate errors are exact: a relock fails precisely on an errorcheck mutex that is held or a
      recursive one held 2048 times, and an unlock precisely when the caller holds nothing. */
  lemma ErrorsAreExact(s: State<Word>, t: Tid)
    requires Inv(s) && t in s.threads && s.threads[t].pc.Idle? && s.value.kind != NORMAL
    ensures forall op: Op :: var th := s.threads[t]; var e := Start(s.value, t, th, op);
              e.thread.pc.Idle? <==>
                (if op == Unlock then th.locks == 0
                 else if s.value.kind == ERRORCHECK then th.locks > 0
                 else th.locks == 2048)
  {
    assert ThreadOk(s.value, s.last, t, s.threads[t]) && LocksOk(s.value, s.last, t, s.threads[t]);
    CounterCounts(s.value.counter);
  }

  /// Wake-ups

  // A thread that will wake a sleeper, or that cannot take the mutex or sleep without marking it contended.
  predicate Owes<V>(pc: PC<V>) {
    || pc.NStore? || pc.NWake? || pc.RWake? || pc.NSwap?
    || ((pc.RLoad? || pc.RLoop? || pc.RWait?) && !pc.timed)
  }

  // Not in a timed wait for a recursive or errorcheck mutex.
  predicate Patient<V>(pc: PC<V>) {
    && !pc.RFlipLoad?
    && (pc.RFast? || pc.RLoad? || pc.RLoop? || pc.RWait? || pc.RSleep? ==> !pc.timed)
  }

  ghost predicate AllPatient(s: State<Word>) {
    forall t | t in s.threads :: Patient(s.threads[t].pc)
  }

  ghost predicate SomeOwes(s: State<Word>) {
    exists t | t in s.threads :: Owes(s.threads[t].pc)
  }

  // Nobody sleeps unless the word says so or somebody is about to act on it.
  ghost predicate Awaited(s: State<Word>) {
    SomeAsleep(s) ==> s.value.state == LOCKED_CONTENDED || SomeOwes(s)
  }

  predicate Untimed(kind: bv2, c: Choice) {
    kind == NORMAL || c.op != TimedLock
  }

  predicate WakeOk(w: Word, th: Thread<Word>, e: Effect<Word>) {
    && Patient(e.thread.pc)
    && (Asleep(e.thread.pc) ==> e.value.state == LOCKED_CONTENDED)
    && (Owes(th.pc) && !e.wakes ==> Owes(e.thread.pc) || e.value.state == LOCKED_CONTENDED)
    && (w.state == LOCKED_CONTENDED ==> Owes(e.thread.pc) || e.value.state == LOCKED_CONTENDED)
    && (e.wakes ==> !Asleep(th.pc))
  }

  lemma StartWake(w: Word, t: Tid, th: Thread<Word>, op: Op)
    requires th.pc.Idle? && (w.kind == NORMAL || op != TimedLock)
    ensures WakeOk(w, th, Start(w, t, th, op))
  {
  }

  lemma NormalWake(w: Word, last: Tid, t: Tid, th: Thread<Word>, expired: bool)
    requires ThreadOk(w, last, t, th) && NormalPc(th.pc)
    ensures WakeOk(w, th, NormalStep(w, th, expired))
  {
  }

  lemma LoopWake(w: Word, last: Tid, tids: set<Tid>, t: Tid, th: Thread<Word>, mv: Word, expired: bool)
    requires WordOk(w, last, tids) && ThreadOk(w, last, t, th) && th.pc == RLoop(mv, false)
    ensures WakeOk(w, th, LoopStep(w, t, th, mv, false, expired))
  {
  }

  lemma EnterWake(w: Word, last: Tid, tids: set<Tid>, t: Tid, th: Thread<Word>, expired: bool)
    requires WordOk(w, last, tids) && ThreadOk(w, last, t, th) && EnterPc(th.pc) && Patient(th.pc)
    ensures WakeOk(w, th, EnterStep(w, t, th, expired))
  {
    if th.pc.RLoop? {
      LoopWake(w, last, tids, t, th, th.pc.mv, expired);
    }
  }

  lemma HolderWake(w: Word, last: Tid, t: Tid, th: Thread<Word>)
    requires ThreadOk(w, last, t, th) && HolderPc(th.pc)
    ensures WakeOk(w, th, HolderStep(w, th))
  {
  }

  lemma WakeLocal(w: Word, last: Tid, tids: set<Tid>, t: Tid, th: Thread<Word>, op: Op, expired: bool)
    requires WordOk(w, last, tids) && ThreadOk(w, last, t, th) && Patient(th.pc)
    requires w.kind == NORMAL || op != TimedLock
    ensures WakeOk(w, th, LocalStep(w, t, th, op, expired))
  {
    if th.pc.Idle? {
      StartWake(w, t, th, op);
    } else if NormalPc(th.pc) {
      NormalWake(w, last, t, th, expired);
    } else if EnterPc(th.pc) {
      EnterWake(w, last, tids, t, th, expired);
    } else {
      HolderWake(w, last, t, th);
    }
  }

  lemma ApplyPatient(s: State<Word>, t: Tid, e: Effect<Word>, victim: Tid)
    requires t in s.threads && AllPatient(s) && Patient(e.thread.pc)
    ensures AllPatient(Apply(s, t, e, victim))
  {
  }

  lemma ApplyAwaited(s: State<Word>, t: Tid, e: Effect<Word>, victim: Tid)
    requires t in s.threads && AllPatient(s) && Awaited(s) && CanApply(s, e, victim) && WakeOk(s.value, s.threads[t], e)
    ensures Awaited(Apply(s, t, e, victim))
  {
    var s' := Apply(s, t, e, victim);
    assert s'.threads[t] == e.thread;
    if e.wakes && SomeAsleep(s) {
      assert Patient(s.threads[victim].pc);
      assert victim != t && Owes(s'.threads[victim].pc);
    } else if SomeAsleep(s') && !Asleep(e.thread.pc) {
      var u :| u in s'.threads && Asleep(s'.threads[u].pc);
      assert u != t && Asleep(s.threads[u].pc);
      if s.value.state != LOCKED_CONTENDED {
        var v :| v in s.threads && Owes(s.threads[v].pc);
        assert v != t ==> Owes(s'.threads[v].pc);
      }
    }
  }

  lemma WakeStep(s: State<Word>, c: Choice)
    requires Inv(s) && AllPatient(s) && Awaited(s) && Untimed(s.value.kind, c)
    ensures AllPatient(Step(s, c)) && Awaited(Step(s, c))
  {
    if c.t in s.threads {
      var e := LocalStep(s.value, c.t, s.threads[c.t], c.op, c.expired);
      assert Patient(s.threads[c.t].pc);
      WakeLocal(s.value, s.last, s.threads.Keys, c.t, s.threads[c.t], c.op, c.expired);
      if CanApply(s, e, c.victim) {
        ApplyPatient(s, c.t, e, c.victim);
        ApplyAwaited(s, c.t, e, c.victim);
      }
    }
  }

  lemma {:induction false} WakeRun(kind: bv2, shared: bv1, tids: set<Tid>, run: seq<Choice>)
    requires GoodKind(kind) && (forall c | c in run :: Untimed(kind, c))
    ensures var s := Exec(Init(kind, shared, tids), run);
            AllPatient(s) && Awaited(s)
    decreases |run|
  {
    if run != [] {
      var before, c := run[..|run| - 1], run[|run| - 1];
      assert c in run && forall d | d in before :: d in run;
      RunKeeps(kind, shared, tids, before);
      WakeRun(kind, shared, tids, before);
      WakeStep(Exec(Init(kind, shared, tids), before), c);
    }
  }

  // No call is in progress, except the calls of sleepers.
  ghost predicate Quiet(s: State<Word>) {
    forall t | t in s.threads :: s.threads[t].pc.Idle? || Asleep(s.threads[t].pc)
  }

  /** No lost wake-up: without timed waits on recursive or errorcheck mutexes, a sleeper in a quiet system
      waits for a holder whose word is marked contended, and so whose unlock will wake it. */
  lemma HolderHasLocks(s: State<Word>)
    requires Inv(s)
    ensures s.value.state != UNLOCKED ==> exists t | t in s.threads :: s.threads[t].locks > 0
  {
    if s.value.state != UNLOCKED {
      assert s.threads[s.last].locks > 0;
    }
  }

  lemma NoLostWakeUp(kind: bv2, shared: bv1, tids: set<Tid>, run: seq<Choice>)
    requires GoodKind(kind) && (forall c | c in run :: Untimed(kind, c))
    ensures var s := Exec(Init(kind, shared, tids), run);
            && Awaited(s)
            && (Quiet(s) && SomeAsleep(s) ==> s.value.state == LOCKED_CONTENDED && exists t | t in s.threads :: s.threads[t].locks > 0)
  {
    WakeRun(kind, shared, tids, run);
    RunKeeps(kind, shared, tids, run);
    HolderHasLocks(Exec(Init(kind, shared, tids), run));
  }

  /// Timed waits on recursive and errorcheck mutexes

  const A: Tid := ThreadId(1)
  const B: Tid := ThreadId(2)
  const C: Tid := ThreadId(3)

  // A locks; B and C, the latter for a limited time, go to sleep; A unlocks, wakes C and locks again
  // before C gets there; C finds the mutex taken and its time up; A unlocks an uncontended mutex.
  const LOST_RUN: seq<Choice> := [
    Choice(A, Lock, false, A), Choice(A, Lock, false, A),
    Choice(B, Lock, false, A), Choice(B, Lock, false, A), Choice(B, Lock, false, A),
    Choice(C, TimedLock, false, A), Choice(C, Lock, false, A), Choice(C, Lock, false, A),
    Choice(A, Unlock, false, A), Choice(A, Lock, false, A), Choice(A, Lock, false, C),
    Choice(C, Lock, false, A),
    Choice(A, Lock, false, A), Choice(A, Lock, false, A),
    Choice(C, Lock, true, A),
    Choice(A, Unlock, false, A), Choice(A, Lock, false, A)]

  datatype View = View(value: Word, a: PC<Word>, b: PC<Word>, c: PC<Word>)

  predicate Looks(s: State<Word>, v: View, base: Word) {
    && s.value == v.value
    && A in s.threads && B in s.threads && C in s.threads
    && s.threads[A].pc == v.a && s.threads[B].pc == v.b && s.threads[C].pc == v.c
    && (!v.a.Idle? ==> s.threads[A].base == base)
    && (!v.b.Idle? ==> s.threads[B].base == base)
    && (!v.c.Idle? ==> s.threads[C].base == base)
  }

  function LostViews(w0: Word): seq<View> {
    var w1, w2 := Owned(w0, A, LOCKED_UNCONTENDED), Owned(w0, A, LOCKED_CONTENDED);
    [
      View(w0, Idle, Idle, Idle), View(w0, RFast(false), Idle, Idle),
      View(w1, Idle, Idle, Idle), View(w1, Idle, RLoop(w1, false), Idle), View(w2, Idle, RWait(w2, false), Idle),
      View(w2, Idle, RSleep(false), Idle), View(w2, Idle, RSleep(false), RLoop(w2, true)),
      View(w2, Idle, RSleep(false), RWait(w2, true)),
      View(w2, Idle, RSleep(false), RSleep(true)), View(w2, RSwap, RSleep(false), RSleep(true)),
      View(w0, RWake, RSleep(false), RSleep(true)),
      View(w0, Idle, RSleep(false), RLoad(true)),
      View(w0, Idle, RSleep(false), RLoop(w0, true)), View(w0, RFast(false), RSleep(false), RLoop(w0, true)),
      View(w1, Idle, RSleep(false), RLoop(w0, true)),
      View(w1, Idle, RSleep(false), Idle), View(w1, RSwap, RSleep(false), Idle),
      View(w0, Idle, RSleep(false), Idle)]
  }

  predicate LooksAt(s: State<Word>, kind: bv2, shared: bv1, i: nat) {
    i <= |LOST_RUN| && Looks(s, LostViews(Unlocked(kind, shared))[i], Unlocked(kind, shared))
  }

  lemma LostLock(s: State<Word>, kind: bv2, shared: bv1, i: nat)
    requires (kind == RECURSIVE || kind == ERRORCHECK) && 0 <= i < 2 && LooksAt(s, kind, shared, i)
    ensures LooksAt(Step(s, LOST_RUN[i]), kind, shared, i + 1)
  {
  }

  lemma LostContend(s: State<Word>, kind: bv2, shared: bv1, i: nat)
    requires (kind == RECURSIVE || kind == ERRORCHECK) && 2 <= i < 4 && LooksAt(s, kind, shared, i)
    ensures LooksAt(Step(s, LOST_RUN[i]), kind, shared, i + 1)
  {
  }

  lemma LostSleep(s: State<Word>, kind: bv2, shared: bv1, i: nat)
    requires (kind == RECURSIVE || kind == ERRORCHECK) && 4 <= i < 6 && LooksAt(s, kind, shared, i)
    ensures LooksAt(Step(s, LOST_RUN[i]), kind, shared, i + 1)
  {
  }

  lemma LostTimedSleep(s: State<Word>, kind: bv2, shared: bv1, i: nat)
    requires (kind == RECURSIVE || kind == ERRORCHECK) && 6 <= i < 8 && LooksAt(s, kind, shared, i)
    ensures LooksAt(Step(s, LOST_RUN[i]), kind, shared, i + 1)
  {
  }

  lemma LostUnlock(s: State<Word>, kind: bv2, shared: bv1, i: nat)
    requires (kind == RECURSIVE || kind == ERRORCHECK) && 8 <= i < 10 && LooksAt(s, kind, shared, i)
    ensures LooksAt(Step(s, LOST_RUN[i]), kind, shared, i + 1)
  {
  }

  lemma LostWake(s: State<Word>, kind: bv2, shared: bv1, i: nat)
    requires (kind == RECURSIVE || kind == ERRORCHECK) && 10 <= i < 12 && LooksAt(s, kind, shared, i)
    ensures LooksAt(Step(s, LOST_RUN[i]), kind, shared, i + 1)
  {
  }

  lemma LostRelock(s: State<Word>, kind: bv2, shared: bv1, i: nat)
    requires (kind == RECURSIVE || kind == ERRORCHECK) && 12 <= i < 14 && LooksAt(s, kind, shared, i)
    ensures LooksAt(Step(s, LOST_RUN[i]), kind, shared, i + 1)
  {
  }

  lemma LostExpire(s: State<Word>, kind: bv2, shared: bv1, i: nat)
    requires (kind == RECURSIVE || kind == ERRORCHECK) && 14 <= i < 17 && LooksAt(s, kind, shared, i)
    ensures LooksAt(Step(s, LOST_RUN[i]), kind, shared, i + 1)
  {
  }

  lemma LostStep(s: State<Word>, kind: bv2, shared: bv1, i: nat)
    requires (kind == RECURSIVE || kind == ERRORCHECK) && i < |LOST_RUN| && LooksAt(s, kind, shared, i)
    ensures LooksAt(Step(s, LOST_RUN[i]), kind, shared, i + 1)
  {
    if i < 2 {
      LostLock(s, kind, shared, i);
    } else if i < 4 {
      LostContend(s, kind, shared, i);
    } else if i < 6 {
      LostSleep(s, kind, shared, i);
    } else if i < 8 {
      LostTimedSleep(s, kind, shared, i);
    } else if i < 10 {
      LostUnlock(s, kind, shared, i);
    } else if i < 12 {
      LostWake(s, kind, shared, i);
    } else if i < 14 {
      LostRelock(s, kind, shared, i);
    } else {
      LostExpire(s, kind, shared, i);
    }
  }

  /** A timed wait on a recursive or errorcheck mutex can swallow the wake-up of another thread: the mutex
      is free, no call is in progress, and a thread sleeps for good. */
  lemma TimedWaitLosesWakeUp(kind: bv2, shared: bv1)
    requires kind == RECURSIVE || kind == ERRORCHECK
    ensures var s := Exec(Init(kind, shared, {A, B, C}), LOST_RUN);
            Quiet(s) && s.value == Unlocked(kind, shared) && SomeAsleep(s)
  {
    var s0 := Init(kind, shared, {A, B, C});
    for i := 0 to |LOST_RUN|
      invariant LooksAt(Exec(s0, LOST_RUN[..i]), kind, shared, i)
    {
      LostStep(Exec(s0, LOST_RUN[..i]), kind, shared, i);
      assert LOST_RUN[..i + 1][..i] == LOST_RUN[..i];
    }
    assert LOST_RUN[..|LOST_RUN|] == LOST_RUN;
    RunKeeps(kind, shared, {A, B, C}, LOST_RUN);
    assert Asleep(Exec(s0, LOST_RUN).threads[B].pc);
  }

  // No quiet state of a run leaves a thread asleep on a free mutex.
  ghost predicate NoOrphan(s: State<Word>) {
    Quiet(s) && SomeAsleep(s) ==> s.value.state != UNLOCKED
  }

  ghost predicate Permitted(run: seq<Choice>, timed: bool) {
    timed || forall c | c in run :: c.op != TimedLock
  }

  /** No wake-up is lost on any run exactly when the mutex is normal or timed locks are not used. */
  lemma WakeUpsKeptExactly(kind: bv2, shared: bv1, timed: bool)
    requires GoodKind(kind)
    ensures (forall tids: set<Tid>, run: seq<Choice> | Permitted(run, timed) :: NoOrphan(Exec(Init(kind, shared, tids), run)))
            <==> kind == NORMAL || !timed
  {
    if kind == NORMAL || !timed {
      forall tids: set<Tid>, run: seq<Choice> | Permitted(run, timed)
        ensures NoOrphan(Exec(Init(kind, shared, tids), run))
      {
        NoLostWakeUp(kind, shared, tids, run);
      }
    } else {
      TimedWaitLosesWakeUp(kind, shared);
      assert Permitted(LOST_RUN, timed) && !NoOrphan(Exec(Init(kind, shared, {A, B, C}), LOST_RUN));
    }
  }
}
