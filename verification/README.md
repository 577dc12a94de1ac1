# A verified model of cthread's runtime

`cthread` is a small C runtime of coroutines and an event loop.  This project models its four
algorithmic parts in Dafny and proves what they promise.

* **The open-addressing hash table** (`khash.h`).  `KHash.HashTable` is a class over the flag, key and value
  arrays, generic in key, value and hash function.  Its in-place rehash shares one key array and one value array
  between the old and the new layout; `Rehash.InPlace` and `Rehash.InHand` say what holds between and during the
  kick-outs, and every method states the finite map the table stands for afterwards.  `Probe` proves that triangular
  probing covers a table whose capacity is a power of two, which is why the unguarded searches end.  `RoundUp` models
  `kroundup32` bit by bit.  `Cost` proves the amortised cost of rehashing, and `KHashRuns` replays any client on a table.
* **The timer queue** (`heap.c`, `evloop.c`).  `Heap.TimerHeap` is the 1-based array heap with intrusive positions,
  ordered by wrapped 32-bit deadlines; ghost unbounded deadlines (`dl`) give the order its meaning.
  `Timers.EvLoop` adds the clock, the firing loop and the window of deadlines that survives every wrap.  The effect of
  callbacks and of the whole firing loop is a function on the queue (`Effects`, `Queued`), which the code is proved
  to compute and about which the lemmas speak.
* **The epoll registrations** (`evloop.epoll.c`).  `Registry` has the state, its invariant and the operations on
  values; `Epoll.EventLoop` is the code over poller objects, which it finds in a `KHash.HashTable`, with the intrusive
  dirty list, the deferred free, the kernel's table as a map, and a dispatch loop whose callbacks may watch, unwatch, close and reuse descriptors.
  What a callback's actions come to is a fold over the state (`Epoll.Performed`), and the calls a batch makes are
  `Epoll.AllCalls`.  `Loop` puts both halves together into `evloop_step`, and runs any number of turns.
* **The coroutine switch** (`cthread.c`, `cthread.sysv64.s`).  `Switch.Cpu` runs the register-saving switch instruction
  by instruction; `Coroutines` has the state machine of threads, contexts and stacks on values, with theorems over
  whole runs; `CThread.Runtime` is the library over thread objects.

Callbacks and foreign code are parameters: a callback is any sequence of actions (`Action` in `Timers` and in `Epoll`)
that may depend on which call it is and whom it calls; a thread's own code is any change of registers and of memory
that leaves saved contexts and return addresses of thread functions alone (`OpCompute`); and which descriptors become
ready, and when, is an argument.

Where the code and its declarations disagree, the code is followed.  `ev_alarm` takes three arguments in `evloop.c`
and two in `evloop.h`; `evloop.epoll.c` uses `w->poll_data`, which `evloop.epoll.h` calls `d.poll`.

Some promises turned out not to hold as one might read them; the contracts give the exact condition.

* `ev_stop` tests only whether a timer's index is set, and firing a timer does not clear it.  It stays within the heap's
  entries if and only if the index is 0 or within 1..size, and it leaves every other timer queued if and only if the
  timer is queued or its index is 0 (`Timers.EvLoop.Stop`, `Heap.SoundExactly`).  Stopping the only timer just after it
  fired does not (`Timers.StopAfterFiring`).
* After the last unwatch of a descriptor the kernel keeps its old interest: after a flush a registered descriptor is
  registered for exactly what its watchers want if and only if it has a watcher (`Registry.Flushed`); watch, flush,
  unwatch, flush leads there (`Registry.StaleInterest`).
* If every due timer arms itself again from its callback, the firing loop comes to an end if and only if all of them do
  so strictly ahead; otherwise there are runs of every length after which a timer is still due (`Timers.RearmEnds`).
* `ev_unwatch` clears a watch's callback but only one of its slots: every waiting watch still has a callback if and
  only if the watch was in no other slot (`Registry.UnwatchArms`).  One watch for both directions of a descriptor, unwatched,
  leads there (`Registry.TwoSlots`).
* `ev_watch` does not refuse a negative descriptor, whose poller the first flush frees while the table still names it
  (`Registry.NegativeDangles`).
* The wrapped comparison is a total order only while deadlines span less than 2^31; at exactly 2^31 each of two
  values precedes the other (`HeapOrder.SpanIsSharp`).  `heap_remove` relies on a comparison at that
  distance, in the one direction in which it is right (`Heap.TimerHeap.ForceUp`).
* A request of more than 2^31 buckets is rounded to 0 and so to the capacity 4 (`KHash.TargetValue`): a full table of
  2^31 buckets gets no room (`KHash.HashTable.MakeRoom`).

`dafny verify dfyconfig.toml` checks the whole project.

## Model

| member | source | states |
|---|---|---|
| Probe.ProbeInjective | khash.h:242-253 | the first 2^k probes of a table of 2^k buckets are pairwise different |
| Probe.ProbeCovers | khash.h:242-253 | every bucket is met within the first 2^k probes, for any hash |
| Probe.ProbeReturns | khash.h:246-254 | the start bucket is met again for the first time at step 2n-1, never earlier |
| Probe.AtNext | khash.h:252 | one turn of a search loop moves exactly one probe further |
| Probe.WrapHarmless | khash.h:252 | a 32-bit wrap of the sum before masking does not change the bucket |
| RoundUp.SmearIsWindow | khash.h:179-181 | the five or-shifts set a bit exactly when it or a higher bit was set |
| RoundUp.RoundsUp | khash.h:178-182 | kroundup32 yields the least power of two not below its argument, and 0 when that is 2^32 |
| RoundUp.UpperBoundRounds | khash.h:197 | the load bound is 0.77 of the capacity, to the nearest integer |
| RoundUp.UpperBoundFacts | khash.h:197 | the load bound lies strictly between 0 and the capacity and leaves a quarter of it above one half |
| KHash.TargetValue | khash.h:264-266 | the capacity a resize request settles on, for every 32-bit request, 0 included |
| KHash.TargetOfNeighbours | khash.h:396-402 | asking for one bucket less keeps a capacity, for one more doubles it |
| Table.PathShort | khash.h:246-255 | with an empty bucket left no search path is as long as the table |
| Table.Advance | khash.h:246-255 | a turn of a guarded search stays in the table and never comes back to its start |
| Table.Miss | khash.h:246-256 | a search that ends at an empty bucket proves the key absent and reaches that bucket |
| Table.Insert | khash.h:439-449 | filling a dead bucket on the search path of an absent key adds exactly that key, and keeps all others found |
| Table.Delete | khash.h:455-461 | a tombstone removes exactly its key and cuts no other search path |
| Table.SiteReached | khash.h:419-437 | the last tombstone before the end of an unsuccessful search, or that end, is on the key's search path |
| Table.LastTombstoneIs | khash.h:411-428 | the remembered site is the tombstone met last, and none exactly if none was met |
| Table.LiveCountIsMapSize | khash.h:239-257 | the number of live buckets is the size of the map the table stands for |
| Rehash.Begin | khash.h:272-306 | before the rehash the old layout alone holds the map |
| Rehash.PickUp | khash.h:307-314 | marking an old bucket deleted takes its pair into the hand and nothing else |
| Rehash.Kick | khash.h:325-350 | writing to a bucket live in the old layout kicks out its pair: old-live, new-occupied and hand stay disjoint and together hold the same pairs |
| Rehash.Drop | khash.h:358-365 | writing to any other bucket empties the hand and completes the map again |
| Rehash.RoomLeft | khash.h:321-324 | while a pair is in hand the new layout is not full: old-live plus new-occupied plus one is the number of pairs |
| Rehash.Finish | khash.h:370-387 | with no old bucket live the new layout stands for the same map, without tombstones |
| KHash.FindEmpty | khash.h:318-324 | the search without a wrap-around guard ends at an empty bucket on the search path |
| KHash.PlaceOne | khash.h:318-366 | one turn of the kick-out loop keeps the map; it places the pair or lowers the number of old-live buckets |
| KHash.KickOut | khash.h:315-367 | the kick-out loop ends with every displaced pair placed |
| KHash.RehashAll | khash.h:306-369 | the rehash preserves the map, leaves no old bucket live and scans each old bucket once |
| KHash.Relayout | khash.h:272-388 | a rehash to any capacity with room, larger, equal or smaller, gives arrays for the same map |
| KHash.FillKeeps | khash.h:439-449 | the invariant and counters after an insertion; a reused tombstone means size was below n_occupied |
| KHash.DeleteKeeps | khash.h:455-461 | the invariant and counters after a deletion |
| KHash.HashTable.constructor | khash.h:218-221 | a new table stands for the empty map |
| KHash.HashTable.Clear | khash.h:231-238 | the table stands for the empty map and keeps its capacity |
| KHash.HashTable.Get | khash.h:239-257 | returns the bucket of a key exactly when it is present, and the end otherwise |
| KHash.HashTable.Resize | khash.h:258-390 | never changes the map; rehashes to the target capacity if and only if the map fits under its load bound, and otherwise changes nothing |
| KHash.HashTable.MakeRoom | khash.h:394-407 | clears tombstones at the same capacity if at most half the buckets would be live, and doubles otherwise; makes room exactly when the table need not double beyond 2^31 buckets, and otherwise changes nothing |
| KHash.HashTable.FindSite | khash.h:409-438 | the bucket of a present key; for an absent one the last tombstone on its path or the first empty bucket; the wrap-around exit is dead |
| KHash.HashTable.Fill | khash.h:439-449 | an absent key gets its bucket; 1 or 2 tells an empty bucket from a tombstone |
| KHash.HashTable.Put | khash.h:391-454 | the map gains the key and nothing else; 0 exactly when it was present, 1 for a bucket that was empty and 2 for a tombstone; counters and cost as the account says |
| KHash.HashTable.Del | khash.h:455-461 | removes exactly the key of a live bucket and is idle on any other |
| KHash.HashTable.SetVal | khash.h:629 | changes the value of exactly one key |
| Cost.RoomIsPaid | khash.h:394-407 | a rehash inside put always makes room and is paid by the saved credit |
| Cost.StepIsPaid | khash.h:391-461 | put, del and clear keep scanned buckets plus credit within 4 per fresh insertion |
| Cost.LinearCost | khash.h:391-461 | along every run from an empty table at most 4 old buckets are scanned per put that returned 1 |
| Cost.CapacityBounded | khash.h:394-407 | along every run the capacity is at most 4, or 4 times the largest size so far |
| KHash.HashTable.FewCanGrow | khash.h:394-407 | a table whose map has fewer than 2^30 keys can always make room |
| KHashRuns.Replay | khash.h:231-461 | after any sequence of insertions, removals, clears and resizes the table stands for the map they mean; without resizes at 4 scanned buckets per fresh insertion, and with a capacity of 4 per key at the peak, at most |
| KHashRuns.MeaningStands | khash.h:231-461 | an insertion or removal stands until the next operation on its key or the next clear |
| HeapOrder.Exact | heap.c:19-22 | the wrapped difference is the true one if and only if that is an int32 |
| HeapOrder.SpanIsSharp | heap.c:19-22 | two values within 2^31 precede each other both ways exactly at distance 2^31 |
| HeapOrder.UpStep | heap.c:35-46 | a swap of bubble-up moves the one defect to the parent |
| HeapOrder.DownStep | heap.c:48-67 | a swap of bubble-down with the smaller child moves the one defect to that child |
| HeapOrder.ForcedUp | heap.c:90-92 | the value just before the head's leaves at most one entry out of order |
| HeapOrder.HeadIsLeast | heap.c:6-22 | the head of a heap is a least entry |
| Heap.SwapKeepsQueue | heap.c:24-33 | a swap keeps every node's recorded position right and permutes the deadlines |
| Heap.DoomedComparable | heap.c:90-92 | the value before the head's is still comparable with every live value and precedes all |
| Heap.AppendLinks | heap.c:77-78 | a node can be queued if and only if it is not queued already: otherwise no positions fit the entries |
| Heap.SoundExactly | heap.c:84-96 | removal at an index stays within the entries of the heap if and only if the index is that of an entry |
| Heap.TimerHeap.Swap | heap.c:24-33 | exchanges two entries and the positions of their nodes |
| Heap.TimerHeap.BubbleUp | heap.c:35-46 | restores heap order from a defect at one entry, keeping the same nodes and deadlines |
| Heap.TimerHeap.BubbleDown | heap.c:48-67 | restores heap order from a defect at the head, keeping the same nodes and deadlines |
| Heap.TimerHeap.Members | heap.c:24-33 | every queued node is the node of the entry at its own recorded position, within 1..size |
| Heap.TimerHeap.Insert | heap.c:69-80 | adds exactly one node with its deadline, across growth of the array |
| Heap.TimerHeap.ForceUp | heap.c:90-92 | drives the doomed entry to the root, at any index and at full span |
| Heap.TimerHeap.Remove | heap.c:82-98 | removes exactly the entry at the index, keeps all other deadlines and heap order, and leaves the removed node's position set |
| Timers.WindowIsExact | heap.c:19-22 | inside the window all 32-bit comparisons of deadlines and of the clock agree with true time |
| Timers.RunStaysExact | evloop.c:3-14 | the window, and so exact comparison, survives every run of arming, removal and clock reads, however often the clock wraps |
| Timers.EvLoop.Timeout | evloop.c:3-7 | the wakeup word of a delay from now |
| Timers.EvLoop.Alarm | evloop.c:9-14 | queues exactly the timer with its true deadline |
| Timers.EvLoop.Stop | evloop.c:16-24 | stays within the heap exactly if the recorded position is 0 or within 1..size, and then removes the timer there; all others stay if and only if the timer is queued or its index is 0 |
| Timers.StopAfterFiring | evloop.c:46-51 | a run after which the stop of a fired timer leaves the heap: its position is 1 and the heap is empty |
| Timers.EvLoop.Callback | evloop.c:50 | any sequence of arming, at once or in the past too, and stopping has exactly its effect on the queue |
| Timers.LastDecides | evloop.c:9-24 | the last action about a timer decides: a stopped one is gone, an armed one has the deadline its delay ahead |
| Timers.EvLoop.NextTimeout | evloop.c:26-37 | -1 exactly for an empty queue, 0 exactly when a timer is due, else the exact wait for the earliest |
| Timers.EvLoop.FireHead | evloop.c:47-50 | the earliest timer leaves the queue and its callback has its whole effect; its position stays set |
| Timers.EvLoop.StepTimers | evloop.c:39-54 | ends if callbacks arm strictly ahead from some call on; each call is of a due timer with the least deadline; the queue is exactly what the calls and their callbacks made of it, with none due; without a due timer the exact wait |
| Timers.Undisturbed | evloop.c:46-51 | a timer no callback touches leaves the queue by being fired when due and not otherwise, and else keeps its deadline |
| Timers.CallbackDecides | evloop.c:46-51 | what a callback of the firing loop does last about a timer holds in the end, if later callbacks leave the timer alone |
| Timers.FiringOrder | evloop.c:46-51 | if callbacks arm strictly ahead, the calls are due entries, each once, in order of true deadline, at most as many as were due, and all of them but those stopped |
| Timers.QueuedWindowed | evloop.c:46-51 | callbacks within bounds keep every deadline in the window, whatever is fired |
| Timers.DrainedOnce | evloop.c:46-51 | without stops the calls are a sorted permutation of the due entries |
| Timers.EvLoop.ReadClock | evloop.epoll.c:236 | a clock read no later than maxLate past the earliest deadline keeps the window |
| Timers.RearmEnds | evloop.c:46-51 | with callbacks that arm their own timer again the loop comes to an end if and only if every due timer does so strictly ahead; otherwise it has runs of every length |
| Registry.RegisteredAreAllocated | evloop.epoll.c:156-170 | every registered poller is allocated and open; every closed one is dirty, unwatched and unknown to the kernel |
| Registry.MarkDirtyKeeps | evloop.epoll.c:107-114 | marking repairs the invariant for the one poller whose watchers changed |
| Registry.SetWatchersKeeps | evloop.epoll.c:129-136 | new watchers with marking keep the invariant |
| Registry.CloseKeeps | evloop.epoll.c:156-175 | closing keeps the invariant |
| Registry.FlushFirstKeeps | evloop.epoll.c:192-218 | one turn of the flush keeps the invariant |
| Registry.NextKeeps | evloop.epoll.c:107-219 | every legal operation, the flush included, keeps the invariant |
| Registry.RunKeeps | evloop.epoll.c:107-219 | the invariant holds along every run |
| Registry.RunRetains | evloop.epoll.c:156-175 | until the next flush every poller stays allocated, and a closed one stays closed and unwatched, even when its descriptor is used again |
| Registry.WatchIsExact | evloop.epoll.c:116-137 | watching changes the one slot of the one poller, its flag and the watch, and nothing else |
| Registry.UnwatchIsExact | evloop.epoll.c:139-154 | unwatching clears the one slot of the watch and the watch, marks the poller, and changes nothing else |
| Registry.CloseIsExact | evloop.epoll.c:156-175 | closing takes the descriptor from the table and the kernel and blanks its poller, and changes nothing else |
| Registry.FlushFrees | evloop.epoll.c:207-208 | the flush frees an allocated poller exactly when it is closed |
| Registry.UnwatchArms | evloop.epoll.c:139-154 | after an unwatch every waiting watch has a callback if and only if the watch was in no other slot |
| Registry.TwoSlots | evloop.epoll.c:116-154 | a run from the start after which a waiting watch has no callback |
| Registry.RunArmed | evloop.epoll.c:116-154 | along every run that watches with idle watches only, every waiting watch has a callback |
| Registry.NegativeDangles | evloop.epoll.c:116-137 | after the first flush the table names an allocated poller if and only if the descriptor is not negative |
| Registry.CloseStrands | evloop.epoll.c:156-170 | after a close exactly the watches of other descriptors can still be unwatched |
| Registry.CtlIsAccepted | evloop.epoll.c:200-216 | the interest remembered in the flags is always empty, and the kernel knows a poller exactly when it is flagged so |
| Registry.Flushed | evloop.epoll.c:192-219 | after the flush exactly the open pollers remain, and a registered descriptor is registered for exactly what is wanted if and only if it is watched |
| Registry.ExactIs | evloop.epoll.c:205-216 | what the exact registration is: in and hang-up for a reader, out for a writer |
| Registry.StaleInterest | evloop.epoll.c:200-218 | watch, flush, unwatch and flush leave the kernel with the interest of a watch that is gone |
| Epoll.EventLoop.MarkDirty | evloop.epoll.c:107-114 | links the poller at the front once; the list stays acyclic and holds exactly the flagged pollers |
| Epoll.EventLoop.Enter | evloop.epoll.c:121-127 | the hash table finds the poller of the descriptor, a new zeroed one exactly if it found none before |
| Epoll.EventLoop.Take | evloop.epoll.c:159-162 | the hash table gives up exactly the poller of the descriptor, if it has one |
| Epoll.EventLoop.Lookup | evloop.epoll.c:121-127 | the poller of the descriptor, a fresh zeroed one if it has none |
| Epoll.EventLoop.Watch | evloop.epoll.c:116-137 | sets exactly the one slot of the descriptor's poller and marks it |
| Epoll.EventLoop.Unwatch | evloop.epoll.c:139-154 | clears exactly the watcher's slot and marks the poller, or does nothing |
| Epoll.EventLoop.Close | evloop.epoll.c:156-175 | the descriptor loses its poller, which loses its watchers and waits on the dirty list to be freed |
| Epoll.EventLoop.FlushTurn | evloop.epoll.c:192-218 | frees a closed poller while it is still allocated; adds only unknown and modifies only known descriptors |
| Epoll.EventLoop.Act | evloop.epoll.c:116-175 | an action is its call where the source allows it, and nothing elsewhere |
| Epoll.EventLoop.Callback | evloop.epoll.c:245-248 | the actions of a callback have exactly their effect, one after the other |
| Epoll.PerformedIs | evloop.epoll.c:116-175 | each action of a callback is its call, in the state its predecessors led to, exactly where the source allows it |
| Epoll.CloseDecides | evloop.epoll.c:156-175 | a descriptor closed by a callback and not watched again has no poller and no registration in the end |
| Epoll.EventLoop.Flush | evloop.epoll.c:192-219 | frees exactly the closed pollers and brings every watched descriptor into step with the kernel |
| Epoll.BatchIsSafe | evloop.epoll.c:238-250 | at every test of a batch all pollers allocated when it began still are, and those closed meanwhile have no watcher |
| Epoll.CallsHaveFn | evloop.epoll.c:242-250 | every watch the dispatch calls has a callback, if callbacks watch with idle watches only |
| Epoll.CallsAreCurrent | evloop.epoll.c:242-250 | a callback runs only for its descriptor's present poller; a closed poller is passed over |
| Epoll.CallsExactly | evloop.epoll.c:244-249 | the reader is called for in or hang-up, the writer for out, and only these |
| Epoll.EventActs | evloop.epoll.c:242-250 | each event of a dispatch: the two tests, in the states left by what ran before, and the callbacks they let act |
| Epoll.ReportedInOrder | evloop.epoll.c:221-228 | every ready descriptor the kernel knows is reported once, in order, with its poller and events |
| Epoll.EventLoop.Dispatch | evloop.epoll.c:242-250 | the callbacks called are exactly those the events reach in the states they are looked at, in order, each has the whole effect of its actions, and nothing is freed |
| Epoll.EventLoop.Step | evloop.epoll.c:192-252 | flush, then the dispatch of exactly the events reported for what the kernel knows after it |
| Loop.SleptIsTimely | evloop.epoll.c:223-236 | a wait that ends at most maxLate after its timeout keeps the window |
| Loop.PollClock | evloop.epoll.c:223-236 | the clock moves on by what the wait took: until something was ready, or for the earliest deadline, at most maxLate late |
| Loop.PollDecides | evloop.epoll.c:242-250 | what a descriptor callback that ran does last about a timer holds after the turn, if later callbacks leave the timer alone |
| Loop.TimerCloses | evloop.c:46-51 | a descriptor closed by the callback of a timer that fired, and not watched again, has no poller after the turn |
| Loop.Loop.FireTimers | evloop.epoll.c:184-187 | all due timers fire, with the effects of their callbacks on timers and descriptors; otherwise the exact wait |
| Loop.Loop.Poll | evloop.epoll.c:192-252 | flush, wait, clock and dispatch of the reported events, with the effects of exactly the callbacks that ran on timers and descriptors |
| Loop.Loop.Step | evloop.epoll.c:182-253 | one turn takes queue, clock and registrations exactly as described, for whatever the callbacks do |
| Loop.Loop.Run | evloop.epoll.c:182-253 | any number of turns, each exactly as described, with the invariants in between |
| Loop.TurnKeeps | evloop.epoll.c:182-253 | a turn keeps the window of deadlines and the invariant of the registrations |
| Loop.RunFiresOnTime | evloop.epoll.c:182-253 | along every run no timer is fired early or more than maxLate late |
| Loop.TimerFires | evloop.epoll.c:182-253 | along every run a timer that callbacks leave alone is fired in the first turn that begins at or after its deadline, on time, and in no other |
| Loop.RunIsSafe | evloop.epoll.c:238-250 | in every dispatch of every run each poller of the batch is allocated at every test |
| Loop.RunCallsHaveFn | evloop.epoll.c:238-250 | in every dispatch of every run each watch called has a callback, if callbacks watch with idle watches only |
| Switch.PushedImage | cthread.sysv64.s:52-60 | the pushes leave the caller's context below its stack pointer and touch nothing else |
| Switch.ResumedIsReturn | cthread.sysv64.s:62-75 | a call that is resumed has all registers as they were, but for the data in rax and the return address in rip |
| Switch.StructFits | cthread.c:211-213 | the thread's structure is aligned to 16 and lies in its block |
| Switch.EntryIsAligned | cthread.c:215-241 | a new thread's image enters its function, aligned as the ABI wants, with the frame pointer at its record, and returns to `__morestack` with the stack pointer at its structure |
| Switch.Cpu.SaveHalf | cthread.sysv64.s:42-60 | saves the six registers, the stack pointer and the caller record of the call |
| Switch.Cpu.LoadHalf | cthread.sysv64.s:62-75 | restores the context found on the load stack and returns the data in it |
| Switch.Cpu.AsmSwitch | cthread.sysv64.s:36-75 | saves the calling context and resumes the one at the load stack |
| Coroutines.CallKeeps | cthread.c:148-155 | a call pushes its target, which resumes as it was saved, and keeps the invariant |
| Coroutines.TailCallKeeps | cthread.c:157-165 | a tail call replaces the top of the chain, hands on resumer and record, and keeps the invariant |
| Coroutines.YieldKeeps | cthread.c:167-179 | a yield pops the chain and resumes the thread below, or the main program |
| Coroutines.WaitKeeps | cthread.c:181-187 | a join of an unfinished thread parks the joiner off the chain |
| Coroutines.EndJoinKeeps | cthread.c:188-191 | the assertion after the yield of a join never fails |
| Coroutines.ExitKeeps | cthread.c:194-206 | an exit hands over to the joiner or the thread below and keeps the count of unfinished threads |
| Coroutines.CreateKeeps | cthread.c:208-245 | a new thread on unused memory is parked, callable and counted |
| Coroutines.ReapKeeps | cthread.c:208-215 | the caller takes back the memory of a finished thread no join asks about, and the invariant stays |
| Coroutines.ReusedStack | cthread.c:208-215 | a new thread may be started anywhere in memory taken back |
| Coroutines.ComputeKeeps | cthread.sysv64.s:36-75 | code that leaves saved contexts alone, wherever else it writes, disturbs no parked thread |
| Coroutines.NextKeeps | cthread.c:148-268 | every legal operation keeps the invariant |
| Coroutines.RunKeeps | cthread.c:148-268 | the invariant holds along every run |
| Coroutines.ParkedRun | cthread.sysv64.s:36-75 | over any run in which a thread, or the main program, is not current it resumes with the context it was saved with |
| Coroutines.RoundTrip | cthread.sysv64.s:36-75 | a call that suspends a thread or the main program returns with exactly the registers it was made with, but for the data in rax and the return address in rip |
| Coroutines.DataArrives | cthread.sysv64.s:70-73 | the data of a switch is in rax of the thread it resumes |
| Coroutines.StartEnters | cthread.c:247-268 | a new thread begins at its function, with its argument, on its own aligned stack |
| Coroutines.LinksAreChain | cthread.c:148-179 | following the yield_to links from the current thread gives exactly the explicit call stack, down to the main program |
| Coroutines.ChainMoves | cthread.c:148-206 | call and start push, yield and wait pop, a tail call replaces the top, an end pops it or puts the joiner in its place |
| Coroutines.CountMoves | cthread.c:194-243 | a start adds one to the threads and an end takes one away; an end records its code, which nothing changes |
| Coroutines.UnwinderRecovers | unwinder.py:34-36 | the three words the unwinder reads are the stack pointer, frame pointer and return address saved by whoever resumed the thread |
| Coroutines.JoinDelivers | cthread.c:194-202 | a thread that exits or returns resumes its joiner with its code stored and its resumer and record handed on |
| Coroutines.JoinWaits | cthread.c:186-191 | nothing but the end of the join can follow, and the stored exit code stays |
| Coroutines.JoinLasts | cthread.c:183-187 | a waiting thread is resumed by the end of its target only |
| Coroutines.JoinReturns | cthread.c:181-192 | over any run between the wait and the end of a join the target has ended, by an exit or a return; the join finds the code it ended with, and gives it as an int |
| Coroutines.ToIntIs | cthread.c:191 | the cast to int keeps the code modulo 2^32, between -2^31 and 2^31-1 |
| Coroutines.FunctionReturns | cthread.sysv64.s:20-33 | a thread's function that returns lands in `__morestack` with the stack pointer at the structure, aligned |
| Coroutines.ReturnKeeps | cthread.sysv64.s:30-33 | the return becomes an exit with the function's result as its code, and keeps the invariant |
| CThread.Runtime.Call | cthread.c:148-155 | refines the call of the state machine, loading the stack the target saved |
| CThread.Runtime.TailCall | cthread.c:157-165 | refines the tail call of the state machine |
| CThread.Runtime.Yield | cthread.c:167-179 | refines the yield of the state machine |
| CThread.Runtime.Join | cthread.c:181-192 | returns the code of a finished thread as an int, and otherwise refines the wait |
| CThread.Runtime.EndJoin | cthread.c:188-191 | the target has finished, its code is returned as an int, and the join is over |
| CThread.Runtime.Exit | cthread.c:194-206 | refines the exit of the state machine |
| CThread.Runtime.Return | cthread.sysv64.s:30-33 | refines the return of a thread's function through `__morestack` |
| CThread.Runtime.Create | cthread.c:208-245 | refines the creation of the state machine |
| CThread.Runtime.Reap | cthread.c:208-215 | refines the taking back of a finished thread's memory |
| CThread.Runtime.Start | cthread.c:247-268 | refines creation followed by a call, from a thread or from the main program; the function begins with its argument on the new stack |

## Left out

- KHash.HashTable.Put: is not stated for a full table of 2^31 buckets, which gets no room.
- KHashRuns.Replay: is not stated for runs along which the map reaches 2^30 keys, when a table may be full at 2^31 buckets.
- Heap.TimerHeap.Insert: is not stated for a node that is queued already; `Heap.AppendLinks` says why it cannot work.
- Timers.EvLoop.Alarm: is not stated for a timer that is queued already, and a callback that finds its timer queued does not arm it.
- Timers.EvLoop.Callback: takes the arming of a queued timer, and the stopping of one that is not queued, as no action.
- Timers.EvLoop.Stop: says when the code leaves the heap's entries, not what it does to the memory there.
- Epoll.EventLoop.Lookup: is not stated for a negative descriptor; `Registry.NegativeDangles` says what follows.
- Epoll.EventLoop.Watch: is not stated for a negative descriptor; `Registry.NegativeDangles` says what follows.  Nor for 2^30 descriptors with a poller, when the table may be full.
- Epoll.EventLoop.Unwatch: is not stated for a watch whose descriptor was closed; `Registry.CloseStrands` says which those are.
- The packed two-bit flags of khash.h: a bucket's flag is one of Empty, Deleted and Live; masking with a capacity less one is the remainder.
- Allocation failure: the allocators abort, so the -1 results of khash.h do not occur.
- khash.h for sets, its string and integer hash functions and its iteration macros: the table is proved for any hash function and for maps.
- Unsigned counters of the hash table and `int` positions of the heap are unbounded; memory runs out before they wrap.
- The `fn` field of timers: what a timer's callback does may depend on the timer and on the call.
- In one turn of the loop the actions of callbacks on timers and on descriptors, which share no state, follow each other instead of alternating.
- Errors of `epoll_wait` and `epoll_ctl`, interrupted waits, and duplicated descriptors.
- `evloop_init`, `evloop_destroy`, the signal stack, and thread-local storage.
- `cthread_altstack` and the `x*alloc` wrappers, which run foreign calls on the main program's stack.
- The volatile registers after a switch, and the frame of `cthread_exit` itself on a stack that is finished.
- Resuming a thread that waits in a join other than by its target's exit, a second joiner of one thread, and a thread that joins itself.
- Addresses are integers that do not wrap.
- The Windows variants, cthread-atomics.h, cthread-c11threads.h, cthread-evloop.c, tls.c and the demo programs.
