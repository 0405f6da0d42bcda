# Models of systems code in myPosts

The repository collects notes on systems code together with the sources they discuss. This project
models six of those sources in Dafny and proves what they are built to guarantee.

- **Trace ring buffer** (`trace_ring_buffer/ring_buffer.c`). `RingCommit` is the commit protocol of
  writers that interrupt each other, one step per atomic operation. `RingSwap` is the lock-free
  hand-over of pages between one writer and one reader, link by link with its HEAD and UPDATE flags and
  with reservations that move the tail over several pages before they commit; `RingOrder` is the order
  of head, commit and tail page and the rules a schedule may be held to, `RingTrail` and `RingWarn` the
  runs that break what a rule does not protect. `RingPage` is the encoding of events, time extends and
  padding in the words of a page. `RingState`, `RingReserve` and `RingSearch` hold the pages as values:
  committed, while the commit page trails the tail page, and during the retries of a reservation.
  `RingBuffer` is the buffer as one writer and one reader use it in turn: what is lost, in which order
  events come out, and with which time stamps. `RingHistory` keeps account of the events, and
  `RingSizes` holds the constants.
- **Bionic mutex** (`android_pthread_mutex_bug/pthread_mutex.cpp`). `MutexWord` is the 32-bit lock word
  and its bit-field macros. `MutexMachine` runs any number of threads through lock, trylock, timed lock
  and unlock on one mutex of any type, one step per atomic operation on the word or futex call.
- **DRM range allocator and eviction scan** (`gfx_gem_mm/drm_mm.c`, `drm_mm.h`, `i915_gem_evict.c`).
  `RangeList` and `RangeFit` are the node list, the hole stack and what fits where; `EvictionScan` is
  the scan that damages the list and repairs it, `ScanOrder` which orders repair it; `DrmMm` is the
  allocator object; `GemEvict` is `i915_gem_evict_something`.
- **GHashTable** (`consolekit2_recursion_bug/ghash.c`). `HashProbe` is the triangular probe sequence,
  `HashSlots` the slots as values, `HashTable` the table object with its arrays.
- **Persistent kmaps** (`ulk_pkmap/highmem.c`). `PkmapSlots` holds the values, `Pkmap` the table object.
- **evdev client queue** (`input_subsystem/evdev.c`). `Evdev` is the circular buffer of one client.

`Arithmetic` and `Lists` hold facts that several of these need.

Protocols that run concurrently are state machines: a step function, a run as a sequence of scheduler
choices, an invariant that every step keeps, and theorems about all runs. Code that updates an object
is a class whose methods are proved against functions on values, and the properties are proved of those
functions.

## What the proofs found

- A timed lock on a recursive or errorcheck mutex can swallow the wake-up of another thread
  (`MutexMachine.TimedWaitLosesWakeUp`). No wake-up is lost exactly when the mutex is normal or timed
  locks are not used (`MutexMachine.WakeUpsKeptExactly`).
- `rb_is_reader_page` loads two links. Between the loads the reader may relink the very page whose link is
  about to be followed. With any number of pages that can raise `RB_WARN_ON` (`RingWarn.SplitTestWarns`);
  without that one step no run does (`RingWarn.NeverWarnsExactly`).
- An event that fits on no page (`RingSearch.FitsExactly`) makes one reservation move the tail again and
  again. Together with that step of the reader, such a reservation can leave the ring without any HEAD link and warn in the middle of the
  hand-over (`RingWarn.LoseFlags`); the ring stays a flagged cycle exactly if one of the two is kept out
  (`RingWarn.StaysFlaggedExactly`, `RingWarn.HandOverWarnsExactly`).
- Even without that step such a reservation can enter the head page with its flag in place, while the reader
  is between swapping a page out and storing it as its own (`RingWarn.Overstep`,
  `RingWarn.EntersPushedExactly`).
- `ring_buffer_lock_reserve` admits payloads that fit on no page once a time extend is needed
  (`RingSearch.AdmittedFitsExactly`). Such a write goes round the ring, and in overwrite mode it throws
  away every event in it but those of the page it started on before it fails (`RingBuffer.Buffer.Write`);
  `RingBuffer.Buffer.RefusedExactly` says exactly when.
- A node of size 0 can be inserted into the range allocator but not always taken out again
  (`RangeList.EmptyNodeBreaks`, `RangeList.RemoveKeepsExactly`), and an allocator of size 0 is not well
  formed from the start (`RangeList.InitOkExactly`).
- The comment at `gfx_gem_mm/drm_mm.c:514` asks for scanned blocks to be removed in the order they were
  added. That order can corrupt the list (`EvictionScan.SameOrderCorrupts`) and repairs it exactly when no
  two of the blocks are neighbours (`ScanOrder.SameOrderRestoresExactly`); the reverse order, which
  `i915_gem_evict.c` uses, always does.
- A stretch of input that an evdev client loses is not always shown by a single SYN_DROPPED
  (`Evdev.StretchCanSplit`): a run shows every stretch by one exactly when the buffer never overflows right
  after the client fetched a SYN_DROPPED (`Evdev.StretchesSplitExactly`).
- `DRM_MM_SEARCH_BEST` compares the size of the node before a hole, and overlooks a hole exactly when
  that size reads as the largest unsigned long (`DrmMm.Manager.SearchBest`), which is when a single unit
  is managed (`DrmMm.BestFitOverlooksExactly`).

## Modelling decisions

- Memory is sequentially consistent. Barriers are not modelled.
- Integers are unbounded except where width matters: the fields of event headers, time deltas and lock
  words are cut to their bits, and the head node of the allocator has its negative size read as unsigned.
- Clock readings, hash functions, colour adjustments and the tests passed to callbacks are arguments.
- The event types of `ring_buffer.h` and the input event codes of `linux/input.h` are kernel constants;
  those headers are not part of the repository.
- A futex wake picks any sleeper, and a sleeper may also wake on its own. Thread ids are distinct, not 0
  and fit 16 bits, as the source assumes. A normal mutex is unlocked by its holder only, as the source
  demands of its caller.
- Where an index is masked with a power of two minus one, the model takes the remainder.

## Model

| member | source | states |
|---|---|---|
| `RingCommit.StepKeeps` | trace_ring_buffer/ring_buffer.c:2473-2509 | every atomic step of any writer on the interrupt stack, from reserving to the end of `rb_end_commit`, keeps the commit protocol's invariant |
| `RingCommit.RunKeeps` | trace_ring_buffer/ring_buffer.c:2473-2509 | the invariant holds after every run from an empty buffer, whatever interrupts whom and wherever |
| `RingCommit.NeverCoversUnfinished` | trace_ring_buffer/ring_buffer.c:1886-1937 | in every run the published position never covers a reserved event whose writer has not committed it |
| `RingCommit.QuiescentIsPublished` | trace_ring_buffer/ring_buffer.c:2479-2509 | whenever no writer is in flight, the commit page is the tail page, the commit index equals the write index and lies on the page, and `committing` is 0 |
| `RingCommit.ReservationsDisjoint` | trace_ring_buffer/ring_buffer.c:2376-2431 | reservations held at the same time are disjoint and each lies inside its page |
| `RingCommit.RunFits` | trace_ring_buffer/ring_buffer.c:2198-2265 | the overshoot of a page's write counter is always owed by the writers that are about to reset it |
| `RingCommit.WindowFits` | trace_ring_buffer/ring_buffer.c:2270-2370 | every page a writer can touch is within one lap of the commit page, so a page number stands for one page |
| `RingCommit.TailMovesOntoEmptyPage` | trace_ring_buffer/ring_buffer.c:990-1055 | the tail moves only to the next page, and that page is empty then, despite stale counters |
| `RingCommit.PublishedStays` | trace_ring_buffer/ring_buffer.c:1886-1937 | no step takes back a published position |
| `RingCommit.PublishesOnlyWhenAlone` | trace_ring_buffer/ring_buffer.c:2479-2509 | a step that publishes runs while no other writer on the stack holds a reservation |
| `RingSwap.StepKeeps` | trace_ring_buffer/ring_buffer.c:2029-2178 | every step of writer or reader keeps the flagged cycle and both parties' knowledge of it, unless the writer has taken a commit page in the ring for the reader's and its reservation goes on to a further page |
| `RingSwap.RunKeeps` | trace_ring_buffer/ring_buffer.c:2029-2178 | so does every interleaving without such a step, over the same pages |
| `RingSwap.RingStaysFlaggedCycle` | trace_ring_buffer/ring_buffer.c:779-983 | in all of them, from the initial ring, the buffer's pages except one form a single cycle; at most one link is HEAD, at least one is flagged, and outside a hand-over exactly one is HEAD and none is UPDATE |
| `RingSwap.ReaderTakesHeadPage` | trace_ring_buffer/ring_buffer.c:3470-3597 | a successful swap takes exactly the page behind the HEAD link and puts the spare page in its place |
| `RingSwap.WriterEntersPushedPage` | trace_ring_buffer/ring_buffer.c:2029-2178 | a writer that moves on without having found its commit page outside the ring enters the ring page after its tail, and from a ring page never the head page; `RingWarn.EntersPushedExactly` covers the other case |
| `RingSwap.HandOverNeverWarns` | trace_ring_buffer/ring_buffer.c:2029-2178 | while the invariant holds, the hand-over of the head flag does not reach its warnings |
| `RingOrder.ReaderTestExact` | trace_ring_buffer/ring_buffer.c:815-823 | read in one go, the test answers exactly whether the page is the reader's page |
| `RingOrder.StepOrdered` | trace_ring_buffer/ring_buffer.c:2270-2370 | a step that is not the reader's relinking of a page (3529) whose link the writer is about to load keeps the commit page behind the tail page and the writer's tests right, and never continues a misled reservation |
| `RingOrder.RunHolds` | trace_ring_buffer/ring_buffer.c:2511-2596 | so every run that obeys a rule with sparing readers, or with events that fit on the first page the tail moves to, keeps what the rule stands for |
| `RingOrder.SparingRunsStayOrdered` | trace_ring_buffer/ring_buffer.c:1886-1937 | if readers spare that page, then however many pages a reservation moves the tail over, no warning is raised, the ring stays a flagged cycle and the commit page never overtakes the tail page |
| `RingOrder.CommitLoopIsShort` | trace_ring_buffer/ring_buffer.c:1886-1937 | in those runs a commit loop takes at most as many rounds as the ring has pages, so its limit of a hundred times as many is never reached |
| `RingOrder.PassesTestExactly` | trace_ring_buffer/ring_buffer.c:2343-2348 | in those runs a writer whose tail is ahead of a commit page outside the ring passes the last test if and only if the reader is between its swap (3565) and the store of its new page (3582) |
| `RingWarn.SplitTestWarns` | trace_ring_buffer/ring_buffer.c:815-823 | from every initial ring of two or more pages there are runs, with one tail move per reservation, in which the tail leaves the ring's order and the writer warns |
| `RingWarn.LoseFlags` | trace_ring_buffer/ring_buffer.c:2029-2178 | from every initial ring there is a run, with several tail moves in one reservation, that warns in the hand-over with no HEAD link left in the ring |
| `RingWarn.Overstep` | trace_ring_buffer/ring_buffer.c:2332-2348 | from every initial ring there is a run with sparing readers in which the tail enters the head page with its flag in place |
| `RingWarn.NeverWarnsExactly` | trace_ring_buffer/ring_buffer.c:1886-1937 | no run that obeys a rule warns if and only if the rule makes readers spare that page |
| `RingWarn.StaysFlaggedExactly` | trace_ring_buffer/ring_buffer.c:779-983 | all runs that obey a rule keep the ring a flagged cycle if and only if readers spare that page or every event fits on the first page the tail moves to |
| `RingWarn.HandOverWarnsExactly` | trace_ring_buffer/ring_buffer.c:2029-2178 | the same condition is exactly when no run warns in the hand-over |
| `RingWarn.EntersPushedExactly` | trace_ring_buffer/ring_buffer.c:2270-2370 | the tail leaves a ring page only for a ring page other than the head page if and only if readers spare that page and either every event fits on the first page the tail moves to or no writer makes its last test while the reader is between 3565 and 3582 |
| `RingPage.LengthInWords` | trace_ring_buffer/ring_buffer.c:2180-2195 | the reserved length is a whole number of words and leaves exactly the payload area asked for |
| `RingPage.SplitDelta` | trace_ring_buffer/ring_buffer.c:1965-1981 | the two fields of a time extend give the delta back exactly when it is below 2^59 |
| `RingPage.WalkConcat` | trace_ring_buffer/ring_buffer.c:235-260 | walking a page event by event is walking its first part and then the rest, records and running stamp alike |
| `RingPage.AppendIsOneRecord` | trace_ring_buffer/ring_buffer.c:1995-2020 | header, length word, time extend and payload as written are read back as one record with that payload |
| `RingPage.AppendWalk` | trace_ring_buffer/ring_buffer.c:1995-2020 | writing an event behind a walkable page adds exactly that record, stamped with the running stamp plus the recorded delta |
| `RingPage.PadWalk` | trace_ring_buffer/ring_buffer.c:2198-2265 | closing a page adds padding and no record, and leaves the running stamp alone |
| `RingPage.ReportedLength` | trace_ring_buffer/ring_buffer.c:218-300 | wherever on the page an event ends up, its reported length is what was asked for, at least one byte, rounded up to a word, and the payload ends where the event does |
| `RingState.PutEventOk` | trace_ring_buffer/ring_buffer.c:2376-2431 | a committed event becomes the last readable one and nothing else changes |
| `RingState.CloseTailOk` | trace_ring_buffer/ring_buffer.c:2198-2265 | closing the tail page changes nothing a reader can see, whether or not the page holds events |
| `RingState.AdvanceOk` | trace_ring_buffer/ring_buffer.c:3599-3620 | stepping over one event removes exactly its record, if it carries one, from the front of the readable ones |
| `RingReserve.SettleMove` | trace_ring_buffer/ring_buffer.c:2270-2370 | moving the tail while the commit page trails behind is, once committed, moving it in the committed buffer |
| `RingReserve.SettleStore` | trace_ring_buffer/ring_buffer.c:2376-2431 | storing an event while the commit page trails behind is, once committed, adding it to the committed buffer |
| `RingReserve.SettleAdvanced` | trace_ring_buffer/ring_buffer.c:1886-1937 | each page that the commit page moves over leaves what committing will have published unchanged |
| `RingReserve.BareReadable` | trace_ring_buffer/ring_buffer.c:2270-2370 | when the tail has gone round to the commit page over pages without events, only the unread events of the reader's page and those of the commit page are left |
| `RingSearch.AdmittedFitsExactly` | trace_ring_buffer/ring_buffer.c:2694-2737 | an admitted payload fits on an empty page exactly when it needs no time extend or leaves eight bytes for it; otherwise it fits on no page |
| `RingSearch.FitsExactly` | trace_ring_buffer/ring_buffer.c:2376-2431 | such a payload fits at an attempt exactly when it starts a page and the clock needs no time extend at that moment; any smaller one fits from the second attempt on |
| `RingSearch.QuestGoesOn` | trace_ring_buffer/ring_buffer.c:2511-2596 | one failed attempt pads the tail page and moves on if there is room, and what it loses is one stretch of events, counted, and only in overwrite mode |
| `RingSearch.TurnCosts` | trace_ring_buffer/ring_buffer.c:2511-2596 | so over any number of attempts the losses stay one stretch of the events that were readable when the write began |
| `RingSearch.StopLeaves` | trace_ring_buffer/ring_buffer.c:2289-2320 | a reservation in overwrite mode that runs into the commit page leaves the unread events of the reader's page and those of the page it began on |
| `RingBuffer.Buffer.constructor` | trace_ring_buffer/ring_buffer.c:1187-1235 | a new buffer is empty and consistent |
| `RingBuffer.Buffer.Conservation` | trace_ring_buffer/ring_buffer.c:3145-3150 | every committed event is in exactly one of consumed, overwritten and readable, entries = read + overrun + readable, and consumption follows commit order |
| `RingBuffer.Buffer.GetReaderPage` | trace_ring_buffer/ring_buffer.c:3470-3597 | taking the head page leaves what is readable unchanged; if the reader then stands on no event, nothing is readable |
| `RingBuffer.Buffer.AdvanceReader` | trace_ring_buffer/ring_buffer.c:3599-3620 | read position, read stamp and, for data events, the read count move on together |
| `RingBuffer.Buffer.Peek` | trace_ring_buffer/ring_buffer.c:3669-3732 | peeking changes nothing readable and ends on a data event, on padding, or on nothing when nothing is readable |
| `RingBuffer.Buffer.Consume` | trace_ring_buffer/ring_buffer.c:3907-3947 | consuming returns the oldest readable event exactly as committed, payload and time stamp, or nothing when there is none |
| `RingBuffer.Buffer.MakeRoom` | trace_ring_buffer/ring_buffer.c:2270-2370 | one attempt to move the tail changes the pages as the model of an attempt says, adds what is overwritten to `overrun`, and counts a failure as a dropped event when the head page stops it without overwriting, else as a commit overrun |
| `RingBuffer.Buffer.FindRoom` | trace_ring_buffer/ring_buffer.c:2511-2596 | the retry loop ends with a reservation at the first attempt that fits, at the commit or head page exactly when the room has run out, or after 1000 attempts, with every event it overwrote counted |
| `RingBuffer.Buffer.EndCommit` | trace_ring_buffer/ring_buffer.c:2479-2509 | the commit page catches up with the tail page and publishes every page in between |
| `RingBuffer.Buffer.Write` | trace_ring_buffer/ring_buffer.c:2511-2596 | a write succeeds exactly when one of the attempts there is room for fits; the event is then the last readable one, stamped with the clock exactly when its page was fresh or the clock advanced by less than 2^59; what is lost is one stretch, all of it counted, also when the write fails, and a failed one in overwrite mode leaves only the unread events of the reader's page and those of the page it began on |
| `RingBuffer.Buffer.RefusedExactly` | trace_ring_buffer/ring_buffer.c:2694-2737 | in overwrite mode an admitted write fails if and only if its payload is of the last eight bytes, the tail page is not fresh or the clock needs a time extend, and every later attempt there is room for needs one too |
| `MutexWord.PackIsBijective` | android_pthread_mutex_bug/pthread_mutex.cpp:62-68 | the 32-bit word and the record of its fields carry the same information |
| `MutexWord.MacrosReadFields` | android_pthread_mutex_bug/pthread_mutex.cpp:76-190 | each testing or extracting macro reads exactly one field |
| `MutexWord.CounterNeverSpills` | android_pthread_mutex_bug/pthread_mutex.cpp:114-126 | adding or subtracting one counter unit under the code's guards changes the counter field only |
| `MutexWord.StateNeverSpills` | android_pthread_mutex_bug/pthread_mutex.cpp:76-107 | the contention flip, the atomic decrement and the new owner values change only the fields they should |
| `MutexWord.CounterCounts` | android_pthread_mutex_bug/pthread_mutex.cpp:114-126 | the 11-bit counter counts up to 2047 |
| `MutexMachine.StepKeeps` | android_pthread_mutex_bug/pthread_mutex.cpp:309-742 | every atomic step of any thread in any call keeps the mutex invariant |
| `MutexMachine.RunKeeps` | android_pthread_mutex_bug/pthread_mutex.cpp:309-742 | the invariant holds after every run of any threads on a mutex of any type |
| `MutexMachine.MutualExclusion` | android_pthread_mutex_bug/pthread_mutex.cpp:309-742 | in every run, timed locks included, at most one thread holds the mutex |
| `MutexMachine.WordTellsTheHolder` | android_pthread_mutex_bug/pthread_mutex.cpp:410-601 | the word is the unlocked value exactly when nobody holds the mutex; owner field and counter are the holder's id and its locks minus one; locks never exceed 2048, or 1 |
| `MutexMachine.ReturnsAreTrue` | android_pthread_mutex_bug/pthread_mutex.cpp:410-742 | whatever a call returns is true of the mutex at the moment it is decided: EDEADLK, EAGAIN, EPERM, EBUSY, ETIMEDOUT and success |
| `MutexMachine.ErrorsAreExact` | android_pthread_mutex_bug/pthread_mutex.cpp:410-425 | a relock fails at once exactly on a held errorcheck mutex or a recursive one held 2048 times, an unlock exactly when the caller holds nothing |
| `MutexMachine.WakeStep` | android_pthread_mutex_bug/pthread_mutex.cpp:309-601 | every step keeps it so that a sleeper implies a contended word or a thread that owes a wake-up or must mark the word before it sleeps or acquires |
| `MutexMachine.NoLostWakeUp` | android_pthread_mutex_bug/pthread_mutex.cpp:309-601 | in every run without timed waits on recursive or errorcheck mutexes, a sleeper in a quiet system waits for a holder of a contended mutex |
| `MutexMachine.TimedWaitLosesWakeUp` | android_pthread_mutex_bug/pthread_mutex.cpp:694-741 | there is a run of three threads after which the mutex is free, no call is in progress and a thread sleeps |
| `MutexMachine.WakeUpsKeptExactly` | android_pthread_mutex_bug/pthread_mutex.cpp:643-742 | no run leaves a sleeper on a free mutex exactly when the mutex is normal or timed locks are not used |
| `RangeList.OrderedAndDisjoint` | gfx_gem_mm/drm_mm.c:65-108 | nodes are ordered by address, disjoint and inside the managed range |
| `RangeList.TotalsAddUp` | gfx_gem_mm/drm_mm.c:582-618 | used and free memory add up to the managed size |
| `RangeList.InsertKeeps` | gfx_gem_mm/drm_mm.c:77-107 | inserting into a hole that has room keeps order, hole flags and hole stack exact |
| `RangeList.RemoveKeepsExactly` | gfx_gem_mm/drm_mm.c:252-283 | removing a node keeps them exact if and only if the node has a size or a hole next to it |
| `RangeList.RemoveUndoesInsert` | gfx_gem_mm/drm_mm.c:252-283 | removing what was just inserted restores the list, with the hole on top of the stack |
| `RangeList.InitOkExactly` | gfx_gem_mm/drm_mm.c:554-572 | a fresh allocator is well formed if and only if it manages something |
| `RangeList.RunKeeps` | gfx_gem_mm/drm_mm.c:65-283 | over every run of insertions of positive size and removals from a fresh allocator, order, hole flags and hole stack stay exact and used plus free memory is the managed size |
| `RangeList.EmptyNodeBreaks` | gfx_gem_mm/drm_mm.c:252-283 | inserting and removing a node of size 0 can leave a hole flag without a hole |
| `RangeList.CheckIsExact` | gfx_gem_mm/drm_mm.c:286-299 | the check says yes exactly when an aligned block of the size fits between the bounds |
| `RangeList.FreeBlockInHole` | gfx_gem_mm/drm_mm.h:90-110 | every free stretch of the managed range lies inside one hole |
| `RangeFit.PlaceIsWell` | gfx_gem_mm/drm_mm.c:172-222 | a hole that passes the search takes the node aligned, inside hole and range and at the lowest such address, so the BUG_ONs of the helpers cannot fire |
| `RangeFit.FitsIffFree` | gfx_gem_mm/drm_mm.c:340-384 | some hole passes the search exactly when a free aligned block of the size exists in the range |
| `DrmMm.Manager.constructor` | gfx_gem_mm/drm_mm.c:554-572 | the allocator starts as one hole, and well formed exactly when it manages something |
| `DrmMm.Manager.SearchFirst` | gfx_gem_mm/drm_mm.c:301-338 | first fit returns the first hole on the stack that fits, and fails exactly when none does |
| `DrmMm.Manager.SearchBest` | gfx_gem_mm/drm_mm.c:340-384 | the best search returns a fitting hole behind a smallest node, and fails exactly when every fitting hole follows a node whose size reads as ULONG_MAX |
| `DrmMm.BestFitOverlooksExactly` | gfx_gem_mm/drm_mm.c:301-338 | with nodes of positive size in fewer than ULONG_MAX units, the best search misses what first fit finds if and only if a single unit is managed |
| `DrmMm.BestFitCanOverlook` | gfx_gem_mm/drm_mm.c:301-338 | a request for the one unit of such an allocator is refused |
| `DrmMm.Manager.InsertNode` | gfx_gem_mm/drm_mm.c:155-247 | an insertion places the node well, with first fit in the first hole on the stack that fits, or changes nothing; with first fit it succeeds exactly when some hole fits |
| `DrmMm.Manager.FirstFitIsComplete` | gfx_gem_mm/drm_mm.c:301-338 | without colour adjustment that is exactly when a free aligned block exists |
| `DrmMm.Manager.ReserveNode` | gfx_gem_mm/drm_mm.c:110-147 | a reservation succeeds exactly when the wanted memory is free |
| `DrmMm.Manager.RemoveNode` | gfx_gem_mm/drm_mm.c:252-283 | an allocated node is taken out and its memory becomes a hole on top of the stack, for others there is only a warning; the allocator stays well formed exactly when the removal leaves a hole, as it does for every node of positive size |
| `DrmMm.Manager.DebugTotals` | gfx_gem_mm/drm_mm.c:600-618 | the loop reports used and free memory that add up to the managed size |
| `DrmMm.Manager.InitScan` | gfx_gem_mm/drm_mm.c:413-456 | a scan begins with the list as it is and no hit |
| `DrmMm.Manager.ScanAdd` | gfx_gem_mm/drm_mm.c:464-511 | adding a block takes it off the list, remembers how to undo it, and hits exactly when the hole around it serves the request |
| `DrmMm.Manager.ScanRemove` | gfx_gem_mm/drm_mm.c:525-543 | any scanned block goes back behind its neighbour, which gets its flag back, and is reported exactly when it reaches into the hit; if it was added last, list, flags and bookkeeping are as before it was added |
| `DrmMm.Manager.ScanRemoveLast` | gfx_gem_mm/i915_gem_evict.c:128-138 | taking off the block added last, as the callers do, restores the scan before it |
| `EvictionScan.BackUndoesAdd` | gfx_gem_mm/drm_mm.c:525-543 | taking a block off the scan gives back the whole list and every flag |
| `EvictionScan.UnwindRestores` | gfx_gem_mm/drm_mm.c:464-543 | however many blocks are on the scan, taking them off in reverse restores the list and every flag |
| `EvictionScan.SameOrderCorrupts` | gfx_gem_mm/drm_mm.c:513-524 | a well-formed list of two blocks whose order is lost when they are taken off in the order they were added |
| `ScanOrder.NowIsStripped` | gfx_gem_mm/drm_mm.c:464-511 | at any point of a scan the list is the original one without the scanned blocks, with a hole wherever one was |
| `ScanOrder.AnyOrderRestores` | gfx_gem_mm/drm_mm.c:525-543 | if no two scanned blocks are neighbours, taking them off in any order restores the list and every flag |
| `ScanOrder.SameOrderRestoresExactly` | gfx_gem_mm/drm_mm.c:513-524 | taking blocks off in the order they were added restores the list and every flag if and only if no two of them are neighbours in the original list |
| `EvictionScan.NoHitNoReport` | gfx_gem_mm/i915_gem_evict.c:128-138 | without a hit no block is reported, so the BUG_ON of the bail-out loop is unreachable |
| `EvictionScan.ReportedIsInside` | gfx_gem_mm/drm_mm.c:540-542 | after a hit a block is reported exactly when it lies inside the hole that was hit |
| `EvictionScan.VictimsAreBetween` | gfx_gem_mm/i915_gem_evict.c:162-178 | the blocks reported over the whole unwinding are exactly the nodes of the original list inside the hole |
| `EvictionScan.EvictOpensHole` | gfx_gem_mm/drm_mm.c:252-283 | evicting them in any order leaves exactly that hole on top of the stack and every other node as it was |
| `EvictionScan.HitThenEvict` | gfx_gem_mm/i915_gem_evict.c:162-195 | after a hit and any order of eviction, the next search with the same request succeeds on the first hole it looks at |
| `EvictionScan.MissIsComplete` | gfx_gem_mm/drm_mm.c:464-511 | a scan without a hit missed nothing: if no hole would do before, none would do with every scanned block evicted |
| `EvictionScan.ScanIsEviction` | gfx_gem_mm/drm_mm.c:464-511 | the list of a scan is the list that evicting its blocks would leave |
| `GemEvict.AddressSpace.MarkFree` | gfx_gem_mm/i915_gem_evict.c:36-47 | pinned buffers and buffers on another list are passed over, others join the scan |
| `GemEvict.AddressSpace.UnwindNone` | gfx_gem_mm/i915_gem_evict.c:128-138 | bailing out restores the allocator exactly |
| `GemEvict.AddressSpace.UnwindFound` | gfx_gem_mm/i915_gem_evict.c:162-178 | unwinding after a hit restores the allocator and collects exactly the reported blocks |
| `GemEvict.AddressSpace.EvictSomething` | gfx_gem_mm/i915_gem_evict.c:68-195 | either some of the oldest candidates are evicted so that a first-fit search then succeeds at once, where evicting one fewer of the oldest would not have done, or nothing has changed and evicting every candidate would not have helped; pinned and busy buffers are never evicted |
| `HashProbe.ProbesDiffer` | consolekit2_recursion_bug/ghash.c:410-413 | the probes of one search look at different slots |
| `HashProbe.ProbesCover` | consolekit2_recursion_bug/ghash.c:410-413 | every slot is looked at within as many probes as there are slots |
| `HashTable.ModFits` | consolekit2_recursion_bug/ghash.c:257-291 | every first slot lies in the table |
| `HashTable.SetShift` | consolekit2_recursion_bug/ghash.c:293-309 | the mask is all ones below the size |
| `HashTable.FindClosestShift` | consolekit2_recursion_bug/ghash.c:311-320 | the shift is the bit length |
| `HashTable.SetShiftFromSize` | consolekit2_recursion_bug/ghash.c:322-331 | the size is the smallest power of two above the wanted one, but at least eight |
| `HashSlots.SearchEnds` | consolekit2_recursion_bug/ghash.c:381-419 | a search in a table with an unused slot meets one within as many steps as there are slots |
| `HashSlots.SearchNext` | consolekit2_recursion_bug/ghash.c:384-414 | one turn of the loop keeps it so that all slots passed hold other entries or tombstones and the first tombstone is remembered |
| `HashSlots.MissIsAbsent` | consolekit2_recursion_bug/ghash.c:381-419 | a search that meets an unused slot without the key has shown that the key is absent |
| `HashSlots.PutNew` | consolekit2_recursion_bug/ghash.c:902-995 | filling the free slot a search ended on, tombstone or not, adds exactly that key and keeps every entry findable and keys unique |
| `HashSlots.PutOver` | consolekit2_recursion_bug/ghash.c:902-995 | rewriting a live slot changes the value of its key, and the key to an equal one |
| `HashSlots.PutTombstone` | consolekit2_recursion_bug/ghash.c:434-460 | a tombstone removes exactly its key and breaks no probe path |
| `HashSlots.RehashOne` | consolekit2_recursion_bug/ghash.c:592-615 | moving a live entry to the new table moves it from the old map to the new one |
| `HashTable.GHashTable.constructor` | consolekit2_recursion_bug/ghash.c:703-728 | a new table is an empty map with one array for keys and values |
| `HashTable.GHashTable.LookupNode` | consolekit2_recursion_bug/ghash.c:355-420 | the result is the slot of an equal key, or the key is absent and the result is the first free slot, unused or tombstone, on its probe path |
| `HashTable.GHashTable.RemoveNode` | consolekit2_recursion_bug/ghash.c:434-460 | removing a node removes its key from the map |
| `HashTable.GHashTable.WriteSlot` | consolekit2_recursion_bug/ghash.c:936-967 | key, split and value writes have the same effect whether or not keys and values share an array |
| `HashTable.GHashTable.Resize` | consolekit2_recursion_bug/ghash.c:573-626 | the new table stands for the same map, has no tombstones and is settled |
| `HashTable.GHashTable.MaybeResize` | consolekit2_recursion_bug/ghash.c:637-646 | afterwards the resize test is false: the size is eight or at most four times the nodes, and a slot is unused |
| `HashTable.GHashTable.Insert` | consolekit2_recursion_bug/ghash.c:1215-1303 | insert, replace and add change the map at the given key and nowhere else, and say whether it was new |
| `HashTable.GHashTable.LookupExtended` | consolekit2_recursion_bug/ghash.c:1172-1195 | a lookup finds an equal key with its value exactly when the map has one |
| `HashTable.GHashTable.Remove` | consolekit2_recursion_bug/ghash.c:1342-1365 | remove takes out the equal key exactly when the map has one |
| `HashTable.GHashTable.RemoveAll` | consolekit2_recursion_bug/ghash.c:473-558 | all entries go, with and without destroy functions, and the table is settled |
| `HashTable.GHashTable.ForeachRemove` | consolekit2_recursion_bug/ghash.c:1473-1511 | exactly the entries that pass the test go, and their number is returned |
| `HashTable.GHashTable.IterNext` | consolekit2_recursion_bug/ghash.c:781-813 | the iterator moves to the next live entry in slot order |
| `HashTable.GHashTable.IterRemove` | consolekit2_recursion_bug/ghash.c:835-856 | removing through the iterator leaves every slot still to be visited alone |
| `PkmapSlots.MapSlotOk` | ulk_pkmap/highmem.c:200-207 | mapping a free slot keeps page table, counts and hash lists inverse to each other |
| `PkmapSlots.FreeSlotOk` | ulk_pkmap/highmem.c:117-144 | unmapping a slot keeps them so |
| `PkmapSlots.CountedUse` | ulk_pkmap/highmem.c:218-234 | the count of a slot stays one more than the users of its page |
| `PkmapSlots.NoStaleTranslation` | ulk_pkmap/highmem.c:37-44 | a translation that a processor may hold is for a slot not free for reuse and names its current page |
| `Pkmap.KmapTable.constructor` | ulk_pkmap/highmem.c:70-75 | all slots start free |
| `Pkmap.KmapTable.PageAddress` | ulk_pkmap/highmem.c:348-373 | the hash list finds the slot of a page exactly when the page is mapped |
| `Pkmap.KmapTable.ForgetAddress` | ulk_pkmap/highmem.c:382-412 | the entry of the page, and no other, leaves its hash list |
| `Pkmap.KmapTable.FlushAllZeroPkmaps` | ulk_pkmap/highmem.c:110-148 | exactly the slots without users become usable, and no stale translation survives |
| `Pkmap.KmapTable.FindEntry` | ulk_pkmap/highmem.c:160-199 | the wrap-around search ends, with a free entry or with every slot in use |
| `Pkmap.KmapTable.MapNewVirtual` | ulk_pkmap/highmem.c:160-208 | it finds a slot exactly when not every slot has a user |
| `Pkmap.KmapTable.KmapHigh` | ulk_pkmap/highmem.c:218-234 | the page is mapped with one more user, or the caller sleeps, exactly when it was not mapped and every slot has a user |
| `Pkmap.KmapTable.KmapHighGet` | ulk_pkmap/highmem.c:249-261 | one more user exactly when the page is mapped |
| `Pkmap.KmapTable.KunmapHigh` | ulk_pkmap/highmem.c:271-309 | one user less, never down to a count of 0; sleepers are woken exactly when the slot lost its last user, so nobody sleeps while a slot can be reclaimed |
| `Evdev.CarriesPop` | input_subsystem/evdev.c:386-405 | fetching moves the oldest queued event to the fetched ones |
| `Evdev.CarriesPush` | input_subsystem/evdev.c:61-99 | passing an event queues it behind the others |
| `Evdev.CarriesDrop` | input_subsystem/evdev.c:75-91 | an overflow replaces the unread queue by one SYN_DROPPED that stands for all of it |
| `Evdev.PassQueue` | input_subsystem/evdev.c:61-99 | nothing is lost unless the buffer is full; a SYN_REPORT makes all that is queued readable, an overflow nothing |
| `Evdev.FetchQueue` | input_subsystem/evdev.c:386-405 | fetching takes the first readable event |
| `Evdev.RunCarries` | input_subsystem/evdev.c:61-99 | over every run of passing and fetching, fetched and queued events together stand for exactly the events passed, and what may be read ends with a SYN_REPORT |
| `Evdev.StretchesSplitExactly` | input_subsystem/evdev.c:75-91 | in every run whose inputs carry no SYN_DROPPED, each lost stretch is shown by a single SYN_DROPPED if and only if no event is passed to a full buffer whose client fetched a SYN_DROPPED last |
| `Evdev.StretchCanSplit` | input_subsystem/evdev.c:75-91 | for every buffer size there is such a run |
| `Evdev.ComputeBufferSize` | input_subsystem/evdev.c:285-292 | a power of two that holds eight packets and 64 events, and no larger than needed |
| `Evdev.Client.constructor` | input_subsystem/evdev.c:294-348 | a new client has an empty queue |
| `Evdev.Client.FetchedIsTheInput` | input_subsystem/evdev.c:386-405 | what the client fetched is the input in order, with stretches of at least bufsize - 1 inputs each replaced by one SYN_DROPPED; what it may read ends with a SYN_REPORT |
| `Evdev.Client.FetchNextEvent` | input_subsystem/evdev.c:386-405 | an event is returned exactly when a whole packet is readable, and is the oldest one |
| `Evdev.Client.PassEvent` | input_subsystem/evdev.c:61-99 | every event passed is accounted for, and an enabled wake lock is held exactly while something is readable |
| `Evdev.Client.EnableSuspendBlock` | input_subsystem/evdev.c:672-685 | enabling takes the wake lock exactly when something is readable |
| `Evdev.Client.DisableSuspendBlock` | input_subsystem/evdev.c:687-699 | disabling gives the wake lock up |

## Left out

- Ring buffer: resizing, CPU hot-plug, buffer and page swap, splice, iterators, `entries_bytes`, discarding events, wait queues and the self test.
- Ring buffer: `RingCommit` has no bound on the count of updaters kept beside the write index, and `RingBuffer` has one writer and one reader in turn, without nested writers.
- Ring buffer: `RingSwap` ends a reader's attempt, and a reservation after too many attempts, by a scheduler choice where the code counts loops, and leaves out the sanity check on `cpu_buffer->pages`; the two read-modify-writes of `rb_set_list_to_head` are one step.
- Mutex: attributes, `pthread_mutex_destroy`, null checks, logging, memory barriers and clocks; the lines of presentation text inside `pthread_mutex_unlock` (553-565) are not code.
- Mutex: the machine works on the fields of the word; `MutexWord` shows operation by operation that the bit arithmetic is the field update.
- Range allocator: `drm_mm_replace_node`, `drm_mm_clean`, printing, and the copy of the same code in `gfx_drm_mm`; address arithmetic does not wrap.
- DrmMm.Manager.ScanRemove: requires that the neighbour the block remembers is on the list, because the code then links the block to a node the list cannot reach; `SameOrderRestoresExactly` covers those runs as not restored.
- GemEvict.AddressSpace.EvictSomething: unbinding always succeeds and is `drm_mm_remove_node`; idling the GPU changes the lists and pins it is given for the second pass, not the allocator.
- GHashTable: destroy callbacks that use the table, reference counting, version checks, allocation failure and the hash functions themselves.
- HashTable.GHashTable.Insert: requires fewer than 2^29 entries, beyond which the size no longer fits a gint.
- Kmaps: low memory pages, interrupts, `kmap_to_page` and the spin locks, which make each method one critical section.
- evdev: several clients, grabbing, reading to user space, ioctls and time keeping.
- i915_gem_execbuffer.c, input.c and the other sources of the repository.
