# Verified models of RT-Thread IPC, memory pools, formatted printing and cJSON

Dafny models of the hard parts of the BerPi NB-IoT firmware: the kernel objects of
RT-Thread 4.0.2 (`ipc.c`, `mempool.c`, the intrusive lists of `rtservice.h`), the
bounded printer of `kservice.c` with the hex codec that uses it, and the parser,
printers, minifier and tree edits of cJSON 1.0.2.

`dafny verify dfyconfig.toml` checks everything.

## How it is modelled

- **Kernel objects are step systems.** Each region between `rt_hw_interrupt_disable`
  and `rt_hw_interrupt_enable` is one step on the state of the object; a run is any
  interleaving of steps. A thread is running, asleep on a list, woken and not yet back
  in its critical section, or (message queue) between its two sections with a node in
  hand. The `RunKeeps...` lemmas are about every state of every run. A class beside
  each step function holds the object's fields, and its methods are proved to be those
  steps and to keep its invariant; the `...Law` lemmas say when each call is granted, refused
  or put to sleep, and what it then changes, by the fields alone. The wait lists of mutex, semaphore, event and mailbox
  are rings of thread nodes on the heap (`Ring`, `ThreadList`). `Wakeups` holds the
  argument that no wake-up is lost, shared by the mailbox, the message queue and the
  memory pools.
- **cJSON is a grammar, two printers and a parser.** `JsonGrammar` has concrete syntax
  trees with all their white space; the parser is proved on every text of the grammar,
  and the printers are proved to write the text of such a tree. `JsonMeaning` says what a
  text denotes without looking at the parser, and `JsonSound` what else the parser accepts.
  `JsonLayout` says where white space stands in a printed and in a minified text.
  `JsonReader`, `JsonNodePrinter`, `JsonBuffer` and `JsonMinify` are the loops over
  cursors and buffers, proved against those functions. `JsonSiblings`, `JsonTree`,
  `JsonDelete` and `JsonLeak` work on linked items on the heap. `Words` ties the bit
  operations of the code to arithmetic.
- **Printing.** `Format` says what a format prints when nothing limits it;
  `FormatPrinter` is the code that stores what fits. `FormatSyntax` writes formats down as
  syntax, and `FormatLaws` says what each directive prints by its text and its argument.

Where code and expectation part, the exact border is proved, with an input beyond it:
nested takes past 255 (`Mutex.NestingBound`, `Mutex.HoldWraps`), inheritance under FIFO
(`Mutex.HandOffInheritsIff`, `Mutex.FifoInverts`), the 16-bit semaphore count
(`Semaphore.RunConserves`, `Semaphore.WrapReached`), long sleeps
(`Timeout.RoundIsExactIff`, `Timeout.LongSleepFails`), a pool without room for a block
(`MemPool.InitStaysInsideIff`), scalar values after an unpaired high surrogate
(`JsonString.DecodedIsMeaningIff`, `JsonString.LosesUnit`), names of duplicated items
(`JsonLeak.DuplicateAndDelete`, `JsonLeak.LeakedName`), octal printing, which divides by 16
(`FormatLaws.OctalTextIff`).
One comment in the source differs from the code, and the code is followed: the length
argument of `hexstring_to_string` counts bytes, not digits (`rb_nb.c:875`, `rb_nb.c:885`).
Memory-pool waiters are woken last come, first served (`mempool.c:338` inserts after the
list head).

## Assumptions

- Suspending takes a thread out of the ready set; resuming unlinks it from its wait list
  and cancels its timer (`ipc.c:173-177`, `thread.c:715-830`); changing a priority sets
  `current_priority`. A thread waits for one object at a time.
- Plain `char` is unsigned (ARM GCC), `long`, `int` and pointers are 32 bits wide.
- Callers free, and write into, only blocks they were handed; the areas given to
  different pools do not overlap and hold at least one block.
- Clock readings, the arguments of a variadic call and the strings they point to are
  parameters.

## Model

| member | source | states |
|---|---|---|
| Mutex.RunKeepsInv | BerPi_nbiot/rt-thread/src/ipc.c:654-882 | over every run of a PRIO mutex (nested takes, blocking, timeouts, hand-offs): value is 1 iff there is no owner iff hold is 0, the owner is not waiting, is at least as urgent as every waiter, its saved priority is its base priority, and every other thread runs at base priority |
| Mutex.RunKeepsCore | BerPi_nbiot/rt-thread/src/ipc.c:654-882 | the ownership part of that invariant over every run, FIFO or PRIO: no boost outlives the final release |
| Mutex.StepKeepsCore | BerPi_nbiot/rt-thread/src/ipc.c:654-882 | every single step, under either discipline, keeps the ownership invariant |
| Mutex.StepKeepsInv | BerPi_nbiot/rt-thread/src/ipc.c:654-882 | every single step of a PRIO mutex keeps the whole invariant, including inheritance and the priority order of the list |
| Mutex.BlockKeepsInv | BerPi_nbiot/rt-thread/src/ipc.c:702-748 | a blocking take queues the caller in priority order and leaves the owner at least as urgent as it |
| Mutex.HandOffKeepsInv | BerPi_nbiot/rt-thread/src/ipc.c:829-860 | the final release hands over to a most urgent waiter, so the new owner needs no boost |
| Mutex.TakeLaw | BerPi_nbiot/rt-thread/src/ipc.c:679-755 | a take is granted exactly when the mutex is free (value down, owner set, hold 1, priority saved) or the caller already owns it (only hold grows); it times out, unchanged, exactly when another owns it and the time is 0; otherwise exactly the caller joins the list and the owner is raised to the lower of the two priorities (PRIO or FIFO as the flag says) |
| Mutex.ReleaseLaw | BerPi_nbiot/rt-thread/src/ipc.c:804-874 | a release by another thread is refused and changes nothing; below the last hold only hold drops, by one; the last release with nobody waiting gives the free mutex with all priorities at their base; with waiters the first one owns it and the others wait on |
| Mutex.TakeAndGiveBack | BerPi_nbiot/rt-thread/src/ipc.c:654-882 | every run of n takes and then n releases by one thread, n up to 255, with nobody waiting, ends in the free mutex it began with |
| Mutex.TakeAndGiveBackRuns | BerPi_nbiot/rt-thread/src/ipc.c:654-882 | and for every thread and every n up to 255 there is such a run |
| Mutex.NestingBound | BerPi_nbiot/rt-thread/src/ipc.c:681-685 | a nested take keeps the invariant if and only if hold is below 255: the bound on nesting is exact |
| Mutex.HoldWraps | BerPi_nbiot/rt-thread/src/ipc.c:681-685 | 255 nested takes are a run of the model, and the next one breaks the invariant |
| Mutex.HandOffInheritsIff | BerPi_nbiot/rt-thread/src/ipc.c:829-860 | a hand-off keeps inheritance if and only if the first waiter is a most urgent one |
| Mutex.FifoInverts | BerPi_nbiot/rt-thread/src/ipc.c:829-860 | a concrete FIFO run in which the more urgent thread ends up waiting behind the new owner |
| Mutex.MutexObject.TakeSection | BerPi_nbiot/rt-thread/src/ipc.c:654-779 | on the heap ring of thread nodes and their priorities, the critical section of rt_mutex_take is the take step, keeps the ring well linked, and keeps the invariant of its discipline unless it is a take past 255 nested ones |
| Mutex.MutexObject.ReleaseSection | BerPi_nbiot/rt-thread/src/ipc.c:790-881 | the critical section of rt_mutex_release, hand-off included, is the release step on the ring and keeps the invariant: a released mutex leaves no boost behind |
| Mutex.MutexObject.Block | BerPi_nbiot/rt-thread/src/ipc.c:721-733 | inheritance and then the ring insertion at the position the boosted priorities give |
| Mutex.MutexObject.ExpireSection | BerPi_nbiot/rt-thread/src/thread.c:807-829 | a timeout unlinks exactly the sleeping thread and keeps the invariant |
| Semaphore.RunConserves | BerPi_nbiot/rt-thread/src/ipc.c:324-515 | over every run: nobody waits while units are left, and between resets value plus grants equals initial value plus releases exactly when the 16-bit counter never wrapped |
| Semaphore.WrapReached | BerPi_nbiot/rt-thread/src/ipc.c:453-462 | a semaphore that starts at 65535 wraps to 0 on the first release: a run on which value plus grants is not what was put in |
| Semaphore.StepKeepsInv | BerPi_nbiot/rt-thread/src/ipc.c:324-515 | each take, release, timeout and reset keeps the balance, counting wraps |
| Semaphore.TakeLaw | BerPi_nbiot/rt-thread/src/ipc.c:343-380 | a take is granted exactly when value is above 0 (value one less, list as it was), times out unchanged exactly when value and time are 0, and otherwise exactly the caller joins the list |
| Semaphore.ReleaseLaw | BerPi_nbiot/rt-thread/src/ipc.c:445-462 | a release with sleepers takes the first off and leaves value; with none it adds one, modulo 2^16 |
| Semaphore.ReleasedIsGranted | BerPi_nbiot/rt-thread/src/ipc.c:343-462 | in every run, a release that finds nobody waiting and does not wrap, then any take: granted, and the state is as before |
| Semaphore.ReleasedIsHandedOver | BerPi_nbiot/rt-thread/src/ipc.c:445-462 | in every run, a release that finds sleepers hands its unit to the first of them |
| Semaphore.ResetLaw | BerPi_nbiot/rt-thread/src/ipc.c:483-515 | after RESET nobody waits and value is the asked count |
| Semaphore.SemaphoreObject.TakeSection | BerPi_nbiot/rt-thread/src/ipc.c:324-409 | the critical section of rt_sem_take on the heap ring is the take step and keeps the books balanced and nobody waiting while units are left |
| Semaphore.SemaphoreObject.ReleaseSection | BerPi_nbiot/rt-thread/src/ipc.c:433-471 | rt_sem_release wakes the first of the ring and hands it the unit, or counts it; the balance is kept |
| Semaphore.SemaphoreObject.ResetSection | BerPi_nbiot/rt-thread/src/ipc.c:483-515 | RESET unlinks every waiter, front first, stores the 16-bit count and starts new, balanced books |
| Timeout.RoundIsExactIff | BerPi_nbiot/rt-thread/src/ipc.c:1525-1532 | the time left after one sleep is max(0, timeout - slept), across the 32-bit tick wrap, if and only if the sleep was at most timeout + 2^31 ticks |
| Timeout.LongSleepFails | BerPi_nbiot/rt-thread/src/ipc.c:1525-1532 | the first sleep past the bound: a timeout of 1 tick is left with 2^31 - 1 |
| Timeout.RetryRounds | BerPi_nbiot/rt-thread/src/ipc.c:1473-1533 | after any number of wake-and-retry rounds of less than 2^31 ticks each, the time left is max(0, original - total slept) |
| Timeout.NeverForever | BerPi_nbiot/rt-thread/src/mempool.c:361-366 | whatever the ticks, a finite timeout stays finite and non-negative, so it never turns into "forever" |
| Event.RunQuiet | BerPi_nbiot/rt-thread/src/ipc.c:1029-1277 | in every reachable state no suspended thread's AND/OR condition is met by the current set |
| Event.SendIsReceiving | BerPi_nbiot/rt-thread/src/ipc.c:1029-1111 | the send loop, with its own test, narrowing and clearing, equals OR-ing in the bits and letting each waiter in queue order make the non-blocking receive: same received bits, same remaining set, same waiters |
| Event.SendStepIsReceive | BerPi_nbiot/rt-thread/src/ipc.c:1064-1092 | the two tests agree, and narrowing event_set before clearing leaves the same set as the receive rule, which clears all the wanted bits |
| Event.OfferQuiet | BerPi_nbiot/rt-thread/src/ipc.c:1054-1101 | after the send loop the set has only shrunk and none of the remaining waiters is satisfied by it |
| Event.StepKeepsInv | BerPi_nbiot/rt-thread/src/ipc.c:1029-1277 | send, receive, timeout and reset each keep the wait list unsatisfied |
| Event.RecvLaw | BerPi_nbiot/rt-thread/src/ipc.c:1148-1237 | for every timeout: when all wanted bits (AND) or some wanted bit (OR) are set, the answer is Ok, a bit is received exactly when it is set and wanted and remains exactly when it is set and not both wanted and cleared; otherwise TimedOut and unchanged exactly when the timeout is 0, else the caller joins the list and its wish is recorded; a wish for no bit is refused |
| Event.SendLaw | BerPi_nbiot/rt-thread/src/ipc.c:1029-1056 | an empty set is refused and changes nothing; otherwise a bit set afterwards was set before or sent (both ways when nobody waits), and whoever still waits was waiting and has no condition met |
| Event.FirstIsServed | BerPi_nbiot/rt-thread/src/ipc.c:1058-1098 | the first waiter, if the bits now set meet its wish, is resumed with exactly the bits set and wanted |
| Event.ResetLaw | BerPi_nbiot/rt-thread/src/ipc.c:1249-1277 | after RESET no bit is set and nobody waits |
| Event.EventObject.SendSection | BerPi_nbiot/rt-thread/src/ipc.c:1029-1111 | the walk over the ring, unlinking as it goes, is the send step and leaves no sleeper satisfied |
| Event.EventObject.Turn | BerPi_nbiot/rt-thread/src/ipc.c:1058-1100 | one turn: the next node is read before this one may be unlinked, so the walk neither skips nor repeats a thread |
| Event.EventObject.ResetSection | BerPi_nbiot/rt-thread/src/ipc.c:1249-1277 | RESET unlinks every waiter, front first, and clears the set |
| Event.EventObject.RecvSection | BerPi_nbiot/rt-thread/src/ipc.c:1127-1237 | the critical section of rt_event_recv is the receive step and keeps every sleeper unsatisfied, the new one included |
| WaitList.SuspendPlaced | BerPi_nbiot/rt-thread/src/ipc.c:93-118 | PRIO suspension puts the thread behind every one at least as urgent and before every less urgent one, the others in place |
| WaitList.Position | BerPi_nbiot/rt-thread/src/ipc.c:98-117 | the PRIO scan stops before the first strictly less urgent thread |
| WaitList.SuspendSorted | BerPi_nbiot/rt-thread/src/ipc.c:92-118 | PRIO suspension keeps the list sorted by priority |
| WaitList.SuspendOrdered | BerPi_nbiot/rt-thread/src/ipc.c:92-118 | and among equal priorities by arrival |
| WaitList.SuspendMembers | BerPi_nbiot/rt-thread/src/ipc.c:80-122 | suspension adds exactly the thread, under either flag |
| WaitList.SuspendJoins | BerPi_nbiot/rt-thread/src/ipc.c:80-122 | exactly the thread is inserted, the others keeping their order; under FIFO it stands last |
| WaitList.WithoutSorted | BerPi_nbiot/rt-thread/src/ipc.c:134-147 | taking a thread out keeps the order of the others |
| Ring.Init | BerPi_nbiot/rt-thread/include/rtservice.h:47-50 | an initialised node is a ring of its own |
| Ring.InsertAfter | BerPi_nbiot/rt-thread/include/rtservice.h:58-65 | on the heap of nodes, inserting after position k is sequence insertion; both link directions stay inverse |
| Ring.InsertBefore | BerPi_nbiot/rt-thread/include/rtservice.h:73-80 | inserting before position k is sequence insertion |
| Ring.Remove | BerPi_nbiot/rt-thread/include/rtservice.h:86-92 | removal is sequence removal, and the node becomes a ring of its own |
| Ring.IsEmpty | BerPi_nbiot/rt-thread/include/rtservice.h:98-101 | the pointer test decides emptiness |
| Ring.Len | BerPi_nbiot/rt-thread/include/rtservice.h:107-118 | the pointer walk counts the elements |
| Ring.SuspendThread | BerPi_nbiot/rt-thread/src/ipc.c:80-122 | FIFO suspension appends, PRIO suspension inserts at the position of the specification |
| Ring.ResumeFirst | BerPi_nbiot/rt-thread/src/ipc.c:134-147 | the first thread is unlinked and returned |
| Ring.ResumeAll | BerPi_nbiot/rt-thread/src/ipc.c:157-185 | every thread is unlinked, front first |
| ThreadList.WaitQueue.Suspend | BerPi_nbiot/rt-thread/src/ipc.c:80-122 | on a ring of thread nodes suspension is the sequence suspension by the threads' current priorities |
| ThreadList.WaitQueue.ResumeFirst | BerPi_nbiot/rt-thread/src/ipc.c:134-147 | resuming takes the first thread off |
| ThreadList.WaitQueue.Leave | BerPi_nbiot/rt-thread/src/thread.c:764-798 | a resumed or timed-out thread leaves from wherever it stands |
| ThreadList.WaitQueue.ResumeAll | BerPi_nbiot/rt-thread/src/ipc.c:157-185 | everyone is resumed, in order |
| ThreadList.SuspendBeside | BerPi_nbiot/rt-thread/src/ipc.c:1487-1491 | of two lists over the same threads, a suspension changes one and leaves the other well linked |
| ThreadList.ResumeAllBeside | BerPi_nbiot/rt-thread/src/ipc.c:1737-1740 | emptying one of the two lists leaves the other as it is |
| Mailbox.RunKeepsInv | BerPi_nbiot/rt-thread/src/ipc.c:1442-1758 | over every run with barging, timeouts and RESET: sent words are the received words followed by the ring's contents, and while a receiver (sender) sleeps the queued words (free slots) are at most the woken receivers (senders) still to re-check |
| Mailbox.StepKeepsInv | BerPi_nbiot/rt-thread/src/ipc.c:1442-1758 | every step keeps the ring, the FIFO order and the wake-ups |
| Mailbox.SendAppends | BerPi_nbiot/rt-thread/src/ipc.c:1535-1542 | a deposit appends to the abstract queue and keeps the offsets |
| Mailbox.RecvTakesFirst | BerPi_nbiot/rt-thread/src/ipc.c:1683-1691 | a withdrawal takes the oldest word and keeps the offsets |
| Mailbox.OffsetsModular | BerPi_nbiot/rt-thread/src/ipc.c:1535-1542 | in_offset is (out_offset + entry) modulo the size |
| Mailbox.SendLaw | BerPi_nbiot/rt-thread/src/ipc.c:1474-1556 | a word is accepted exactly when a slot is free (the queue is the old one plus the word, the first sleeping receiver is woken); Full and unchanged exactly when none is and the timeout is 0; otherwise exactly the caller joins the senders |
| Mailbox.RecvLaw | BerPi_nbiot/rt-thread/src/ipc.c:1610-1704 | the oldest word is taken exactly when there is one, and the first sleeping sender is woken; TimedOut and unchanged exactly when there is none and the timeout is 0; otherwise exactly the caller joins the receivers |
| Mailbox.ResetLaw | BerPi_nbiot/rt-thread/src/ipc.c:1726-1758 | after RESET the queue is empty and nobody sleeps |
| Mailbox.MailboxObject.constructor | BerPi_nbiot/rt-thread/src/ipc.c:1294-1322 | rt_mb_init gives the empty mailbox, both rings empty |
| Mailbox.MailboxObject.SendSection | BerPi_nbiot/rt-thread/src/ipc.c:1442-1561 | the critical section of rt_mb_send_wait on the array, the offsets and the two heap rings is the send step and keeps the ring invariant |
| Mailbox.MailboxObject.RecvSection | BerPi_nbiot/rt-thread/src/ipc.c:1590-1714 | the critical section of rt_mb_recv on the array, the offsets and the two heap rings is the receive step and keeps the ring invariant |
| Mailbox.MailboxObject.ResetSection | BerPi_nbiot/rt-thread/src/ipc.c:1726-1758 | RESET unlinks every receiver and then every sender, in order, and leaves an empty ring that meets its invariant |
| Wakeups.WakeKeeps | BerPi_nbiot/rt-thread/src/ipc.c:1544-1554 | when a unit becomes available and one sleeper is woken for it, no wake-up is lost |
| Wakeups.WakeLaw | BerPi_nbiot/rt-thread/src/ipc.c:1544-1554 | exactly the first sleeper is woken, the others sleep on in their order; with nobody asleep nothing changes |
| Wakeups.SleepKeeps | BerPi_nbiot/rt-thread/src/ipc.c:1487-1491 | going to sleep with nothing available loses no wake-up |
| Wakeups.ReenterKeeps | BerPi_nbiot/rt-thread/src/ipc.c:1515-1532 | a woken thread that re-enters pays for at most one unit |
| Wakeups.LeaveKeeps | BerPi_nbiot/rt-thread/src/ipc.c:1515-1520 | a timeout takes one sleeper away and loses no wake-up |
| MessageQueue.RunKeepsInv | BerPi_nbiot/rt-thread/src/ipc.c:1781-2446 | over every run: the pool splits exactly into free list, linked queue and nodes in flight; entry is the queue length and tail its last node (null iff head is null); the queue is the bounded deque in link-step order; in-flight nodes hold their message; no wake-up is lost, also after RESET |
| MessageQueue.StepKeepsInv | BerPi_nbiot/rt-thread/src/ipc.c:1975-2446 | every critical section, the copying between them, timeouts and RESET keep that invariant |
| MessageQueue.TakeKeeps | BerPi_nbiot/rt-thread/src/ipc.c:2079-2080 | taking a node leaves the rest of the free list and the queue intact |
| MessageQueue.TakeLaw | BerPi_nbiot/rt-thread/src/ipc.c:2002-2080 | a node is taken exactly when one is free, and it is the first; Full and unchanged exactly when none is and the timeout is 0; otherwise exactly the caller joins the senders |
| MessageQueue.UnlinkLaw | BerPi_nbiot/rt-thread/src/ipc.c:2262-2352 | the first message is unlinked exactly when there is one; TimedOut and unchanged exactly when there is none and the timeout is 0; otherwise exactly the caller joins the receivers |
| MessageQueue.EnterLaw | BerPi_nbiot/rt-thread/src/ipc.c:1975-2083 | the same in a run, for a normal and for an urgent send: what the sender then holds, or sleeps with |
| MessageQueue.SendGoesThrough | BerPi_nbiot/rt-thread/src/ipc.c:1975-2225 | from every reachable state with a node free, whatever the timeout, taking the node, copying and linking make the deque the old one plus the message, at its back, or in front when urgent |
| MessageQueue.RecvGoesThrough | BerPi_nbiot/rt-thread/src/ipc.c:2238-2384 | from every reachable state with a message queued, whatever the timeout, a receive gets the first message of the deque and gives its node back |
| MessageQueue.EmptyRecvLaw | BerPi_nbiot/rt-thread/src/ipc.c:2262-2330 | with none queued a receive with timeout 0 changes nothing, any other one sleeps |
| MessageQueue.ResetLaw | BerPi_nbiot/rt-thread/src/ipc.c:2397-2445 | after RESET the deque is empty, nobody sleeps, and every queued node is free |
| MessageQueue.LinkBackKeeps | BerPi_nbiot/rt-thread/src/ipc.c:2092-2106 | linking at the tail appends the node to the queue, with entry and tail right and no 16-bit wrap |
| MessageQueue.LinkFrontKeeps | BerPi_nbiot/rt-thread/src/ipc.c:2197-2206 | the urgent link puts the node in front of the queue |
| MessageQueue.UnlinkKeeps | BerPi_nbiot/rt-thread/src/ipc.c:2339-2349 | a receive unlinks exactly the first node and resets the tail when it was the last |
| MessageQueue.ReturnKeeps | BerPi_nbiot/rt-thread/src/ipc.c:2359-2361 | returning a node pushes it on the free list |
| MessageQueue.ResetKeeps | BerPi_nbiot/rt-thread/src/ipc.c:2411-2434 | RESET empties the queue onto the free list, which becomes the queue reversed followed by what was free |
| MessageQueue.DrainChain | BerPi_nbiot/rt-thread/src/ipc.c:2416-2431 | the RESET loop leaves a null-terminated list without repetition |
| MessageQueue.Pigeonhole | BerPi_nbiot/rt-thread/src/ipc.c:2105-2106 | a list of distinct nodes is no longer than the pool, so entry cannot wrap |
| MessageQueue.InitInv | BerPi_nbiot/rt-thread/src/ipc.c:1810-1825 | after initialisation every node is free, last one first |
| MessageQueue.MessageQueueObject.constructor | BerPi_nbiot/rt-thread/src/ipc.c:1781-1831 | the initialisation loop threads the free list through the pool |
| MessageQueue.MessageQueueObject.TakeSection | BerPi_nbiot/rt-thread/src/ipc.c:2002-2083 | first section of rt_mq_send_wait and of rt_mq_urgent |
| MessageQueue.MessageQueueObject.Fill | BerPi_nbiot/rt-thread/src/ipc.c:2085-2088 | between the sections: clear the link, unless urgent, and copy the message |
| MessageQueue.MessageQueueObject.LinkBackSection | BerPi_nbiot/rt-thread/src/ipc.c:2090-2125 | second section of rt_mq_send_wait |
| MessageQueue.MessageQueueObject.LinkFrontSection | BerPi_nbiot/rt-thread/src/ipc.c:2194-2225 | second section of rt_mq_urgent |
| MessageQueue.MessageQueueObject.UnlinkSection | BerPi_nbiot/rt-thread/src/ipc.c:2262-2352 | first section of rt_mq_recv |
| MessageQueue.MessageQueueObject.ReturnSection | BerPi_nbiot/rt-thread/src/ipc.c:2357-2384 | second section of rt_mq_recv |
| MessageQueue.MessageQueueObject.ResetSection | BerPi_nbiot/rt-thread/src/ipc.c:2397-2445 | the RESET loop refines the drain of the specification |
| MemPool.RunKeepsInv | BerPi_nbiot/rt-thread/src/mempool.c:77-449 | over every run of any number of pools, with user writes into allocated payloads: each block is in exactly one of free chain and used, the chain is acyclic, null-terminated and block_free_count long, used headers name their pool, waiters lose no wake-up |
| MemPool.StepKeepsInv | BerPi_nbiot/rt-thread/src/mempool.c:77-449 | init, create, alloc, retry, free, a payload write and a timeout each keep every pool |
| MemPool.InitPartition | BerPi_nbiot/rt-thread/src/mempool.c:110-121 | with room for one block, initialisation leaves all blocks free in address order |
| MemPool.InitStaysInsideIff | BerPi_nbiot/rt-thread/src/mempool.c:110-119 | initialisation writes inside the pool area only, if and only if there is room for at least one block |
| MemPool.CarvedFits | BerPi_nbiot/rt-thread/src/mempool.c:94-104 | the blocks counted fit the area, and one more would not |
| MemPool.BlockInside | BerPi_nbiot/rt-thread/src/mempool.c:110-116 | every block lies inside the pool area |
| MemPool.BlocksDisjoint | BerPi_nbiot/rt-thread/src/mempool.c:110-116 | two blocks of a pool do not overlap |
| MemPool.HandedDisjoint | BerPi_nbiot/rt-thread/src/mempool.c:371-390 | two handed-out blocks never overlap, in the same pool or in different ones |
| MemPool.AllocPartition | BerPi_nbiot/rt-thread/src/mempool.c:371-382 | allocation moves the first block of the chain to the used ones, with a header naming the pool |
| MemPool.AllocLaw | BerPi_nbiot/rt-thread/src/mempool.c:319-390 | a block is handed out exactly when one is free, and it is the first of the chain; the caller times out, nothing changed, exactly when none is and the time is 0; otherwise it sleeps in front of the others |
| MemPool.FreeLaw | BerPi_nbiot/rt-thread/src/mempool.c:399-449 | a freed block is the next to be handed out, the counters then being as before, and the first sleeper is woken for it |
| MemPool.FreePartition | BerPi_nbiot/rt-thread/src/mempool.c:418-423 | freeing moves a used block to the front of the chain |
| MemPool.FreeReturnsHome | BerPi_nbiot/rt-thread/src/mempool.c:399-449 | the header of a handed-out block leads back to the pool it came from, and only that pool changes |
| MemPool.WriteKeeps | BerPi_nbiot/rt-thread/src/mempool.c:371-390 | a word stored anywhere inside an allocated payload damages no pool |
| MemPool.PayloadIsNoHeader | BerPi_nbiot/rt-thread/src/mempool.c:371-390 | none of its four bytes overlaps a header, its own or another block's |
| MemPool.PoolObject.constructor | BerPi_nbiot/rt-thread/src/mempool.c:77-124 | the loop of rt_mp_init and rt_mp_create, and the store that ends the chain |
| MemPool.PoolObject.AllocSection | BerPi_nbiot/rt-thread/src/mempool.c:303-391 | the critical section of rt_mp_alloc; the assertion that block_ptr is not null holds |
| MemPool.FreeBlock | BerPi_nbiot/rt-thread/src/mempool.c:399-449 | rt_mp_free: a null block is ignored, otherwise only the pool named by the header changes |
| JsonNumber.NumberParses | BerPi_nbiot/packages/cJSON-v1.0.2/cJSON.c:102-121 | every number of the JSON grammar, followed by a byte that cannot extend it, is consumed exactly and given its exact value |
| JsonReader.ReadNumber | BerPi_nbiot/packages/cJSON-v1.0.2/cJSON.c:102-121 | the digit loops compute that value and stop where the specification stops |
| JsonString.StringParses | BerPi_nbiot/packages/cJSON-v1.0.2/cJSON.c:198-255 | every well-formed string literal, whatever follows, is consumed exactly, and the stored bytes are those of the unit-by-unit rule |
| JsonString.DecodedIsMeaningIff | BerPi_nbiot/packages/cJSON-v1.0.2/cJSON.c:222-244 | those bytes are the UTF-8 of the literal's scalar values (U+0000 and unpaired surrogates dropped) if and only if each high surrogate with a \u unit directly after it has there a low one, U+0000, or a high one that no low one follows; otherwise some are missing |
| JsonString.LosesUnit | BerPi_nbiot/packages/cJSON-v1.0.2/cJSON.c:227-231 | the literal \uD800\u0041 loses its U+0041 |
| JsonString.LosesPair | BerPi_nbiot/packages/cJSON-v1.0.2/cJSON.c:227-231 | the literal \uD800\uD800\uDC00 loses its pair |
| JsonString.SkipsMalformed | BerPi_nbiot/packages/cJSON-v1.0.2/cJSON.c:223-225 | a \u without four hexadecimal digits counts as U+0000 |
| JsonString.OverrunsBuffer | BerPi_nbiot/packages/cJSON-v1.0.2/cJSON.c:203-223 | unless the four bytes run over the closing quote: a text on which the second pass overruns the buffer |
| JsonReader.ReadHex4 | BerPi_nbiot/packages/cJSON-v1.0.2/cJSON.c:183-194 | parse_hex4: the value of four digits, or 0 at the first byte that is none |
| JsonString.LiteralFits | BerPi_nbiot/packages/cJSON-v1.0.2/cJSON.c:203-249 | in every well-formed literal the first pass stays inside the text and counts at least the bytes the second pass stores |
| Utf8.EncodeDecodes | BerPi_nbiot/packages/cJSON-v1.0.2/cJSON.c:225-244 | a strict decoder of section 3 of RFC 3629 inverts the encoder on every code point |
| Utf8.DecodeEncodes | BerPi_nbiot/packages/cJSON-v1.0.2/cJSON.c:225-244 | only one byte string decodes to a given code point |
| Utf8.StoreUtf8 | BerPi_nbiot/packages/cJSON-v1.0.2/cJSON.c:235-243 | the fall-through switch, on 32-bit words, stores the encoding backwards |
| Words.ContinuationBits | BerPi_nbiot/packages/cJSON-v1.0.2/cJSON.c:238-240 | the or/and masks give 128 plus the low six bits |
| Words.ShiftSix | BerPi_nbiot/packages/cJSON-v1.0.2/cJSON.c:238-240 | shifting right by six divides by 64 |
| Words.FirstByteBits | BerPi_nbiot/packages/cJSON-v1.0.2/cJSON.c:241-241 | the first-byte marks add up with what is left |
| Words.PairBits | BerPi_nbiot/packages/cJSON-v1.0.2/cJSON.c:232-232 | the shift-and-or of a surrogate pair is the arithmetic of section 2.2 of RFC 2781 |
| JsonReader.ReadString | BerPi_nbiot/packages/cJSON-v1.0.2/cJSON.c:198-255 | both passes, on every text on which neither leaves its buffer; malformed escapes included |
| JsonParser.ValueParses | BerPi_nbiot/packages/cJSON-v1.0.2/cJSON.c:363-437 | every well-formed value, followed by the end, white space, a comma or a closing bracket, is consumed exactly and yields the tree built from its units |
| JsonParser.DocumentParses | BerPi_nbiot/packages/cJSON-v1.0.2/cJSON.c:329-343 | a well-formed text parses to that tree and to its end, with or without the end check |
| JsonParser.DocumentTrails | BerPi_nbiot/packages/cJSON-v1.0.2/cJSON.c:329-343 | a well-formed value with something else behind it is refused if the end is required, and otherwise read, with the rest reported |
| JsonSound.ValueSound | BerPi_nbiot/packages/cJSON-v1.0.2/cJSON.c:363-553 | conversely, whatever parse_value accepts is the text of a tree of a loose grammar (bytes up to 32 as blanks, a leading zero or missing digits in numbers, any string bytes and escapes), followed by the reported rest, and the result is the value of that tree; the one exception is a string that ends with the text instead of its quote |
| JsonSound.DocumentSound | BerPi_nbiot/packages/cJSON-v1.0.2/cJSON.c:329-343 | an accepted document is blanks and such a value; where the end is required, only blanks follow it |
| JsonSound.StringSound | BerPi_nbiot/packages/cJSON-v1.0.2/cJSON.c:198-255 | an accepted string is a quote, units and a closing quote, or the end of the text, and the stored bytes are those of its units |
| JsonSound.NumberSound | BerPi_nbiot/packages/cJSON-v1.0.2/cJSON.c:102-121 | an accepted number is a sign, digits, fraction and exponent, and the result is the exact value of that notation |
| JsonMeaning.DocumentMeansIff | BerPi_nbiot/packages/cJSON-v1.0.2/cJSON.c:329-343 | which is the tree the text denotes by its scalar values if and only if all its strings and names are lossless |
| JsonMeaning.BuiltIsDenotedIff | BerPi_nbiot/packages/cJSON-v1.0.2/cJSON.c:363-437 | the same for every value inside a text |
| JsonReader.ReadValue | BerPi_nbiot/packages/cJSON-v1.0.2/cJSON.c:363-375 | the cursor version of parse_value refines the specification, rejections included |
| JsonReader.ReadArray | BerPi_nbiot/packages/cJSON-v1.0.2/cJSON.c:412-437 | the loop of parse_array refines the specification |
| JsonReader.ReadObject | BerPi_nbiot/packages/cJSON-v1.0.2/cJSON.c:520-553 | the loop of parse_object refines the specification |
| JsonReader.ReadDocument | BerPi_nbiot/packages/cJSON-v1.0.2/cJSON.c:329-343 | cJSON_ParseWithOpts refines the specification |
| JsonReader.SkipBlanks | BerPi_nbiot/packages/cJSON-v1.0.2/cJSON.c:326-326 | the blank-skipping loop |
| JsonPrinter.RoundTrip | BerPi_nbiot/packages/cJSON-v1.0.2/cJSON.c:363-664 | the text of every tree of null, bool, 32-bit integer, NUL-free string, array and object, formatted or not, parses to the same ordered tree and stops exactly at its end |
| JsonPrinter.LayoutText | BerPi_nbiot/packages/cJSON-v1.0.2/cJSON.c:378-664 | the printed text is the text of a syntax tree |
| JsonPrinter.LayoutBuilds | BerPi_nbiot/packages/cJSON-v1.0.2/cJSON.c:378-664 | which builds the tree it was printed from |
| JsonLayout.MemberStands | BerPi_nbiot/packages/cJSON-v1.0.2/cJSON.c:572-664 | in a formatted object every member stands on a line of its own: a line break, one tab per level, the name, a colon and a tab, the value, a comma unless it is the last, a line break |
| JsonLayout.BraceStands | BerPi_nbiot/packages/cJSON-v1.0.2/cJSON.c:572-664 | and so does its closing brace, one level further out |
| JsonLayout.UnformattedSolid | BerPi_nbiot/packages/cJSON-v1.0.2/cJSON.c:378-664 | the unformatted text has no white space outside string literals and does not depend on the depth |
| JsonLayout.StringLaw | BerPi_nbiot/packages/cJSON-v1.0.2/cJSON.c:287-312 | a string prints, between quotes, byte by byte: the seven short escapes, \u and four small hexadecimal digits of the same value for the other bytes below 32, every other byte as it is |
| JsonLayout.NumberLaw | BerPi_nbiot/packages/cJSON-v1.0.2/cJSON.c:157-169 | a 32-bit integer prints as a minus if need be and its shortest decimal notation |
| JsonString.StringRoundTrip | BerPi_nbiot/packages/cJSON-v1.0.2/cJSON.c:198-313 | parsing a printed string gives back the same bytes |
| JsonCompose.MeasureString | BerPi_nbiot/packages/cJSON-v1.0.2/cJSON.c:262-284 | the computed length is exactly that of the escaped text, in the fast and in the escaping case |
| JsonCompose.ComposeString | BerPi_nbiot/packages/cJSON-v1.0.2/cJSON.c:263-313 | both ways of filling write exactly that many characters |
| JsonNodePrinter.PrintNode | BerPi_nbiot/packages/cJSON-v1.0.2/cJSON.c:378-409 | print_value without a buffer allocates and fills the specified text |
| JsonNodePrinter.PrintStringNode | BerPi_nbiot/packages/cJSON-v1.0.2/cJSON.c:258-313 | print_string_ptr without a buffer fills its allocation exactly |
| JsonNodePrinter.PrintArrayNode | BerPi_nbiot/packages/cJSON-v1.0.2/cJSON.c:475-517 | print_array without a buffer: the summed length covers the text |
| JsonNodePrinter.PrintObjectNode | BerPi_nbiot/packages/cJSON-v1.0.2/cJSON.c:614-664 | print_object without a buffer: the summed length covers the text |
| JsonNodePrinter.ObjectFits | BerPi_nbiot/packages/cJSON-v1.0.2/cJSON.c:624-636 | the length summed over the members covers text and terminator |
| PowerOfTwo.Pow2GtRoundsUp | BerPi_nbiot/packages/cJSON-v1.0.2/cJSON.c:123-123 | the bit smearing gives the smallest power of two not below its argument, for every size up to 2^30 |
| PowerOfTwo.Grow | BerPi_nbiot/packages/cJSON-v1.0.2/cJSON.c:123-123 | pow2gt of an int, run on its 32-bit word |
| JsonBuffer.PrintBuffer.Ensure | BerPi_nbiot/packages/cJSON-v1.0.2/cJSON.c:127-142 | regrowth, to the size pow2gt gives, keeps what was written and makes the asked room |
| JsonBuffer.PrintBuffer.Update | BerPi_nbiot/packages/cJSON-v1.0.2/cJSON.c:144-150 | the new write position is the end of the text at the old one |
| JsonBuffer.EmitString | BerPi_nbiot/packages/cJSON-v1.0.2/cJSON.c:258-313 | print_string_ptr into the buffer |
| JsonBuffer.EmitValue | BerPi_nbiot/packages/cJSON-v1.0.2/cJSON.c:378-409 | print_value into the buffer appends the same text as the per-node printer, every write inside the current buffer |
| JsonBuffer.EmitArray | BerPi_nbiot/packages/cJSON-v1.0.2/cJSON.c:451-474 | print_array into the buffer |
| JsonBuffer.EmitObject | BerPi_nbiot/packages/cJSON-v1.0.2/cJSON.c:566-613 | print_object into the buffer |
| JsonBuffer.PrintBuffered | BerPi_nbiot/packages/cJSON-v1.0.2/cJSON.c:351-359 | for every printable tree, both formats and every starting size of at least 1, the text of the per-node printer |
| JsonMinify.MinifyPreservesMeaning | BerPi_nbiot/packages/cJSON-v1.0.2/cJSON.c:741-756 | minifying a well-formed comment-free text leaves a text that parses to the same tree |
| JsonMinify.MinifyValue | BerPi_nbiot/packages/cJSON-v1.0.2/cJSON.c:741-756 | what is kept of a value is exactly its text without gaps |
| JsonLayout.MinifiedPrint | BerPi_nbiot/packages/cJSON-v1.0.2/cJSON.c:741-756 | minifying the formatted text of a tree gives its unformatted text, which minifying leaves as it is |
| JsonLayout.MinifySolid | BerPi_nbiot/packages/cJSON-v1.0.2/cJSON.c:741-756 | whatever it is given, well-formed or not, what the minifier keeps has no white space outside string literals |
| JsonLayout.LineComment | BerPi_nbiot/packages/cJSON-v1.0.2/cJSON.c:750-750 | a double-slash comment is dropped up to its line break |
| JsonLayout.BlockComment | BerPi_nbiot/packages/cJSON-v1.0.2/cJSON.c:751-751 | a block comment is dropped up to its end; the star that opens it can also close it |
| JsonMinify.MinifyInPlace | BerPi_nbiot/packages/cJSON-v1.0.2/cJSON.c:741-756 | in place: the write cursor never passes the read cursor and the array ends up holding the minified text |
| JsonSiblings.GetArraySize | BerPi_nbiot/packages/cJSON-v1.0.2/cJSON.c:667-667 | the pointer walk counts the children |
| JsonSiblings.GetArrayItem | BerPi_nbiot/packages/cJSON-v1.0.2/cJSON.c:668-668 | the item at the index, the first one for a negative index, NULL past the end |
| JsonSiblings.Suffix | BerPi_nbiot/packages/cJSON-v1.0.2/cJSON.c:672-672 | linking behind the last sibling appends |
| JsonSiblings.AddItemToArray | BerPi_nbiot/packages/cJSON-v1.0.2/cJSON.c:677-677 | appending on the heap is sequence append; next and prev stay inverse; a NULL item changes nothing |
| JsonSiblings.DetachItemFromArray | BerPi_nbiot/packages/cJSON-v1.0.2/cJSON.c:683-684 | detaching is sequence removal and leaves the item without siblings; past the end nothing happens |
| JsonSiblings.InsertItemInArray | BerPi_nbiot/packages/cJSON-v1.0.2/cJSON.c:690-691 | inserting is sequence insertion; past the end it appends |
| JsonSiblings.ReplaceItemInArray | BerPi_nbiot/packages/cJSON-v1.0.2/cJSON.c:692-694 | replacing is sequence update and unlinks the old item; past the end nothing happens |
| JsonTree.CopyFields | BerPi_nbiot/packages/cJSON-v1.0.2/cJSON.c:719-725 | a new item with the same fields, no links and no reference flag |
| JsonTree.CopyChildren | BerPi_nbiot/packages/cJSON-v1.0.2/cJSON.c:728-737 | the loop leaves fresh copies hanging from the new item that say what the children say |
| JsonTree.Duplicate | BerPi_nbiot/packages/cJSON-v1.0.2/cJSON.c:714-739 | the copy consists of fresh items, has the same shape and content (reference flags cleared), and only the root when not recursive |
| JsonDelete.Delete | BerPi_nbiot/packages/cJSON-v1.0.2/cJSON.c:87-99 | of trees without references: every block they own is freed exactly once and nothing else, and no item is read, and nothing freed, after it was freed |
| JsonDelete.ReleasedExact | BerPi_nbiot/packages/cJSON-v1.0.2/cJSON.c:87-99 | the same for one tree, as a statement about the order of reads and frees |
| JsonLeak.DuplicateAndDelete | BerPi_nbiot/packages/cJSON-v1.0.2/cJSON.c:714-739 | a duplicate, deleted again, has all its names freed if and only if no named item that was copied (the whole tree, or the root alone) is marked as having a constant name |
| JsonLeak.LeakedName | BerPi_nbiot/packages/cJSON-v1.0.2/cJSON.c:723-725 | an item with a constant name, duplicated and deleted: the copied name is never freed |
| JsonLeak.CopyNames | BerPi_nbiot/packages/cJSON-v1.0.2/cJSON.c:723-725 | a tree with the content of a duplicate has a constant name exactly where the original has one |
| Numerals.NumeralDenotes | BerPi_nbiot/rt-thread/src/kservice.c:570-587 | the digits denote the number in base 10 or 16, without leading zero |
| Numerals.NumeralFits | BerPi_nbiot/rt-thread/src/kservice.c:674-682 | a 32-bit number has at most ten digits, so the temporary buffer holds them |
| Numerals.CollectDigits | BerPi_nbiot/rt-thread/src/kservice.c:677-681 | the division loop collects exactly those digits, least significant first |
| Format.FieldDenotes | BerPi_nbiot/rt-thread/src/kservice.c:608-773 | however it is padded, signed or zero-extended, a printed number reads back as the argument (the 32-bit pattern when unsigned) |
| Format.FieldLength | BerPi_nbiot/rt-thread/src/kservice.c:608-773 | the field is max(width, sign plus digits) long |
| FormatPrinter.PrintNumber | BerPi_nbiot/rt-thread/src/kservice.c:608-773 | print_number, with all its padding loops, writes the field of the specification into what still fits |
| FormatPrinter.ScanDirective | BerPi_nbiot/rt-thread/src/kservice.c:815-887 | the scan of flags, width, precision and qualifier |
| FormatPrinter.SkipAtoi | BerPi_nbiot/rt-thread/src/kservice.c:590-597 | the digit loop of skip_atoi |
| FormatPrinter.PrintString | BerPi_nbiot/rt-thread/src/kservice.c:920-955 | the %s conversion: cut to a positive precision, padded to the width |
| FormatPrinter.PrintChar | BerPi_nbiot/rt-thread/src/kservice.c:894-918 | the %c conversion |
| FormatPrinter.VsnPrintf | BerPi_nbiot/rt-thread/src/kservice.c:775-1057 | the result is the length of the whole text whatever the size; stored are its first min(n, size-1) characters and a terminator, and nothing else changes |
| FormatSyntax.SpecScanned | BerPi_nbiot/rt-thread/src/kservice.c:815-887 | flags, width, precision and qualifier, as written, are scanned as what they say: the digits as their number, a star as the next argument, a negative width as left adjustment |
| FormatLaws.AnyFormatLaw | BerPi_nbiot/rt-thread/src/kservice.c:805-1045 | every format is a list of literal texts and directives, and prints them one after the other, each directive from the arguments its predecessors left; a directive cut short by the end prints one percent sign |
| FormatLaws.FormatLaw | BerPi_nbiot/rt-thread/src/kservice.c:805-1045 | the same for a format given by its pieces |
| FormatLaws.DirectiveText | BerPi_nbiot/rt-thread/src/kservice.c:805-1045 | a format of one directive prints what that directive prints |
| FormatLaws.SignedLaw | BerPi_nbiot/rt-thread/src/kservice.c:989-1037 | %d and %i, under any flags, width, precision and qualifier: the sign asked for and the decimal digits of the signed argument (32 bits, 16 after h), laid out as the flags say, as long as the width if that is more; read back in base 10 it is the argument |
| FormatLaws.UnsignedLaw | BerPi_nbiot/rt-thread/src/kservice.c:983-1037 | %u, %x and %X: the digits of the argument without sign in base 10, 16 with small and 16 with capital letters, laid out likewise; read back it is the argument |
| FormatLaws.DecimalText | BerPi_nbiot/rt-thread/src/kservice.c:989-993 | plain %d and %i: a minus if need be and the decimal notation of the argument, nothing else |
| FormatLaws.UnsignedText | BerPi_nbiot/rt-thread/src/kservice.c:983-993 | plain %u, %x and %X: the notation of the word in base 10 or 16, nothing else |
| FormatLaws.OctalLaw | BerPi_nbiot/rt-thread/src/kservice.c:979-981 | %o prints what %x prints |
| FormatLaws.OctalTextIff | BerPi_nbiot/rt-thread/src/kservice.c:570-587 | %o prints the octal notation of its argument if and only if that is below 8 |
| FormatLaws.StringLaw | BerPi_nbiot/rt-thread/src/kservice.c:920-955 | %s: the pointed string, "(NULL)" for a null pointer, cut to a positive precision, blanks on the side the flags say |
| FormatLaws.CharLaw | BerPi_nbiot/rt-thread/src/kservice.c:894-918 | %c: the low byte of the argument, padded likewise |
| FormatLaws.PointerLaw | BerPi_nbiot/rt-thread/src/kservice.c:957-971 | %p: the pointer in small hex, on eight zero-padded places unless a width is given |
| FormatLaws.OtherLaw | BerPi_nbiot/rt-thread/src/kservice.c:972-1011 | one percent sign for %%, and an unknown conversion as it stands |
| FormatLaws.CharactersText | BerPi_nbiot/rt-thread/src/kservice.c:894-978 | plain %s, %c and %%: the string, the character, the percent sign |
| HexCodec.PatternText | BerPi_nbiot/nb_devise/rb_nb.c:866-866 | "%02X" prints exactly the two digits of a byte |
| HexCodec.StringToHex | BerPi_nbiot/nb_devise/rb_nb.c:857-869 | two digits for each byte and a terminator; an error, and no write, for a length of 0 or less |
| HexCodec.HexStringToString | BerPi_nbiot/nb_devise/rb_nb.c:881-901 | each pair of characters becomes a byte: the inner digit loop, the shift and the or |
| HexCodec.ToNibbles | BerPi_nbiot/nb_devise/rb_nb.c:889-897 | the inner loop turns digits of either case into their values and leaves other characters |
| HexCodec.HexRoundTrip | BerPi_nbiot/nb_devise/rb_nb.c:857-901 | hexstring_to_string inverts string_to_hex on every byte string |
| HexCodec.EncodeDecode | BerPi_nbiot/nb_devise/rb_nb.c:857-901 | running the one after the other gives the bytes back |

## Left out

- The scheduler, timers and thread internals: assumed as above; registration of objects, hooks, debug logging and SMP code add nothing here.
- `rt_*_detach`, `rt_*_delete` and `rt_*_create` of the IPC objects: they end or begin a run.
- The `-RT_EINTR` retry of `rt_mutex_take`: signals are not enabled in this build.
- Several mutexes at once: inheritance is stated for one mutex; with two, the saved priority of the code can be stale.
- The size check of a message (`size > msg_size`) and the truncation to the receiver's buffer: a message is an opaque value.
- 32-bit wrap of `block_free_count` and of pool addresses: bounded by the size of memory.
- JSON numbers outside 32-bit integers when printing, and the rounding of `double` when parsing: values are exact reals.
- Malformed JSON is modelled as the code treats it, up to texts on which the code leaves its buffers (`Undefined`); which texts of the loose grammar of `JsonSound` are refused is not characterised beyond the well-formed ones, none of which is; the error pointer `ep` is not modelled.
- Allocation failure: every allocation succeeds.
- The parser builds tree values; the linked items are modelled in `JsonSiblings` and `JsonTree` only.
- Lookup by name (`cJSON_GetObjectItem` and the object variants of the edits), item references and array constructors: list walks and field copies over the same lists.
- JsonSiblings.ReplaceItemInArray: returns the item it took out instead of deleting it; deletion is JsonDelete.Delete.
- JsonDelete.Delete: for trees without reference items, as a reference shares children it does not own; what happens to memory is a returned list.
- JsonTree.Duplicate: strings are values, so that the copies of strings are new blocks is not stated.
- JsonBuffer.PrintBuffered: for texts up to 2^30 - 32 characters, beyond which `pow2gt` overflows a 32-bit `int`.
- Format.FieldLength: not for precision 0, for which the code prints no digits at all.
- Format.FieldDenotes: not for precision 0, for the same reason.
- The `#` prefix and long long are not compiled in; widths and precisions that overflow an `int` are not modelled.
- The wait lists of the message queue and of the memory pools are sequences; those of the other objects are heap rings.
- Event words are sets of bit numbers, not machine words.
- Drivers, displays, AT commands, MQTT and the sensor threads.
