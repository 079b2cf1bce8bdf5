# A verified model of the RT-Thread 4.0.1 kernel

This project models the core of the real-time kernel in `rt-thread/src` and proves what
its data structures and protocols keep, over every input, every run and every interleaving.
The configuration is the one the board uses: one processor, 32-bit words, `RT_ALIGN_SIZE` 4.
The slab allocator is modelled too, although the board does not enable it.

How the parts fit together:

- **Shared pieces.** `Common`, `Memory` (words), `Bits` (and, or, shifts, powers of two), `Lists`
  (lists of threads or nodes), `Tiling` (a region divided into blocks: splitting, merging,
  sums), `IpcWait` (the wait lists of `ipc.c`), `IntrusiveList` (the circular lists of
  `rtservice.h`, as linked objects).
- **IPC as step protocols.** `Mailbox`, `MessageQueue`, `Event`, `Mutex`, `Semaphore`. A
  region between disabling and enabling interrupts is one atomic step. A call that blocks is
  its `...Enter` step and, each time its thread is resumed, its `Rerun` step; copying into
  and out of message nodes is a step per byte, with interrupts on. A thread is idle, blocked
  on a wait list, or ready: resumed but not yet run. Each `...Spec` module gives the steps as
  functions and the invariant every step keeps; `...Theorems` quantify over runs, that is
  over all interleavings, and say what each call returns, whom it makes wait and whom it
  wakes, as do `MutexCalls` and `SemaphoreCalls`; what a caller passed is taken from the
  actions of the run, not from the state. The module with the class has the code's loops and
  updates in place, proved to compute those functions.
- **Allocators.** `SmallHeap` (`mem.c`), `MemHeap` (`memheap.c`) and `Slab` (`slab.c`, on top
  of the page list of `SlabPages`). In the first two the headers lie in the same array of
  32-bit words as the payloads, so that a header written in the wrong place would damage a
  payload, and the proofs say exactly when that happens. `SmallHeapSearch` says when the search
  of `mem.c` ends; `SmallHeapLive` and `MemHeapLive` say which allocations are live, and how
  large, after each call, and when a call succeeds; `SlabCalls` says the same of the slab
  allocator, and that no page is ever lost. `SlabPages` threads its list through arrays indexed by page number.
- **Timers.** `TimerSpec`, `TimerTheorems`, `Timers`: the skip list over 32-bit ticks. Every
  timer also carries its true deadline and start number, as history that no branch reads.
- **Scheduler.** `Bitmap`, `SchedulerSpec`, `SchedulerTheorems`, `SchedulerCalls`, `Scheduler`:
  ready lists, the bitmaps with one or two levels, `__rt_ffs`, and what each call does to the
  thread it names, to the lists and to all other threads.
- **Formatter.** `FormatSpec` says what text a format and its arguments stand for; `Format`
  is the code that writes a bounded part of it; `FormatTheorems` reads the text back, and
  `FormatCalls` says what every conversion prints and reads specifications back.

## Where the code does not do what one would expect

Each of these is a theorem, with the exact condition where there is one.

- A shrinking `rt_realloc` (`mem.c`) can leave a free block below `lfree`, after which a
  request fails although a free block fits: `ShrinkLowestIff`, `LostIff`, `ShrunkBlockIsLost`.
- `rt_malloc` (`mem.c`) never uses an exact fit that ends at `heap_end`, so a fresh heap can
  never be allocated as one piece: `OnlyExactEndRefused`, `FreshHeapRefusesAll`.
- On a heap of less than twelve bytes the bound of that search wraps, and `rt_malloc` never
  comes back: `MallocReturnsIff`, `TinyHeapSpins`.
- A request within three bytes of 2^32 wraps when it is rounded up. `mem.c` and `memheap.c`
  then hand out too small a block (`MallocCovers`, `AllocCovers`, `WrappedMalloc`,
  `WrappedAlloc`); `rt_realloc` frees the block it is given, and `rt_memheap_realloc` cuts it
  down (`SmallHeapLive.ReallocReplacesOne`, `ReallocCovers`, `WrappedRealloc`). The slab
  allocator refuses such a request (`SlabAlignment.MallocCovers`).
- The test for growing in place in `rt_memheap_realloc` can wrap. The block then grows over the
  end of the pool, the header of the free block lands inside the grown block's own header and
  first words, and the payload just returned may be handed out again: `GrowKeepsIff`,
  `StepKeepsIff`, `MisfireOverlaps`, `MisfireHandsOutAgain`, `GrowMisfires`.
- `slab.c` documents that all power-of-two allocations are aligned to their size (lines
  149-153). That holds up to a page; beyond, exactly if the page the request is served from
  happens to be aligned: `PowerOfTwoAligned`, `AlignedIff`, `PagesMisaligned`,
  `ChunkMisaligned`.
- A mutex with FIFO waiting loses priority inheritance when it is handed over:
  `HandOffIff`, `FifoInverts`.
- A waiter that times out leaves the owner at the priority inherited from it, unless the owner
  or another waiter has that priority too: `TimedOutIff`, `OwnerRunsAtTheBest`, `TimeoutStrands`.
- The hold count of a mutex wraps at the owner's 256th take: `RetakeIff`, `CounterWraps`.
- A semaphore at 65535 loses all its tokens at the next release: `StepAccounts`.
- The timeout of a resumed thread is recomputed correctly exactly if it runs again at most
  half the tick range late: `RemainingIs`.
- `-RT_EFULL` from a message queue does not mean that the queue is full; nodes being copied
  count as well: `SendVerdict`.
- A precision of 0 prints no digits at all: `NumberReadsBack`. `%o` prints in base 16, which is
  the octal numeral exactly for arguments below 8: `OctalIff`.

`slab.c` also documents that `malloc(0)` returns a block (line 154); the code returns NULL
(lines 485-486), and the model follows the code.

## Model

| member | source | states |
|---|---|---|
| IntrusiveList.Node.constructor | rt-thread/include/rtservice.h:47-50 | an initialised node is a ring of its own |
| IntrusiveList.Node.InsertAfter | rt-thread/include/rtservice.h:58-65 | inserting behind the k-th node of a ring gives the ring with the new node right behind it, whatever the new node's links were; only three nodes are written |
| IntrusiveList.Node.InsertBefore | rt-thread/include/rtservice.h:73-80 | the same in front of a node; in front of the list head means at the end of what the list holds |
| IntrusiveList.Node.Remove | rt-thread/include/rtservice.h:86-92 | the other nodes stay a ring in the same order and the removed node becomes a ring of its own, so a second removal is harmless |
| IntrusiveList.Node.IsEmpty | rt-thread/include/rtservice.h:98-101 | true exactly when the ring holds nothing besides the list |
| IntrusiveList.Node.Len | rt-thread/include/rtservice.h:107-118 | the number of nodes besides the list, as an unsigned int |
| IntrusiveList.ContentsUnique | rt-thread/include/rtservice.h:30-118 | the links determine what a list holds: two rings through the same node are equal |
| IntrusiveList.Rotated | rt-thread/include/rtservice.h:58-80 | any node of a ring may play the list |
| IpcWait.Suspend | rt-thread/src/ipc.c:79-122 | the scan for a PRIO wait list and the append for a FIFO one compute the abstract insertion |
| IpcWait.EnqueueSorted | rt-thread/src/ipc.c:92-118 | a PRIO wait list stays sorted and stable: behind everyone at least as urgent, in front of the rest |
| IpcWait.ResumeAllAt | rt-thread/src/ipc.c:156-184 | after resuming all, exactly the listed threads are ready with -RT_ERROR and nobody else changed |
| IpcWait.RemainingIs | rt-thread/src/ipc.c:1524-1531 | waiting for ever stays so; the rest of any other timeout, recomputed in 32-bit ticks, is what is really left clipped at 0, if and only if the thread comes back at most half the tick range late |
| Mailbox.Box.constructor | rt-thread/src/ipc.c:1293-1321 | an empty mailbox whose size was cut to 16 bits, over the first so many words of its pool |
| Mailbox.Box.SendEnter | rt-thread/src/ipc.c:1441-1560 | the first atomic region of a send: full and unwilling to wait, stored, or on the sender wait list; the invariant holds again |
| Mailbox.Box.RecvEnter | rt-thread/src/ipc.c:1589-1713 | the first atomic region of a receive, likewise |
| Mailbox.Box.TrySend | rt-thread/src/ipc.c:1471-1559 | one turn of the send loop: the ring write with wrap, the wake-up of the first receiver, or blocking; nothing behind the ring is written |
| Mailbox.Box.TryRecv | rt-thread/src/ipc.c:1617-1712 | one turn of the receive loop: the ring read with wrap, the wake-up of the first sender, or blocking |
| Mailbox.Box.Rerun | rt-thread/src/ipc.c:1514-1531 | what a resumed thread does next: return its error, or try again with the rest of its timeout |
| Mailbox.Box.Timeout | rt-thread/src/thread.c:749-771 | a timed-out thread leaves its wait list with -RT_ETIMEOUT |
| Mailbox.Box.WakeAll | rt-thread/src/ipc.c:156-184 | the loop over a wait list resumes every thread on it with -RT_ERROR |
| Mailbox.Box.Control | rt-thread/src/ipc.c:1725-1757 | reset empties the ring and both wait lists; any other command is refused and changes nothing |
| MailboxSpec.RingModulo | rt-thread/src/ipc.c:1534-1541 | in_offset is (out_offset + entry) mod size |
| MailboxSpec.DepositContents | rt-thread/src/ipc.c:1534-1546 | storing appends one mail to the queue the ring stands for |
| MailboxSpec.WithdrawContents | rt-thread/src/ipc.c:1682-1706 | reading takes the oldest mail and leaves the others in order |
| MailboxSpec.ResetKeeps | rt-thread/src/ipc.c:1725-1757 | after a reset the queue is empty and every waiter is on its way back with -RT_ERROR |
| MailboxTheorems.StepKeeps | rt-thread/src/ipc.c:1441-1757 | every step of every thread keeps: ring arithmetic, wait lists equal to the blocked threads, and at most as many mails (free places) as receivers (senders) resumed and not yet run while somebody waits |
| MailboxTheorems.InitialKeeps | rt-thread/src/ipc.c:1293-1321 | a new mailbox satisfies the invariant and holds nothing |
| MailboxTheorems.NoLostWakeUp | rt-thread/src/ipc.c:1441-1713 | no lost wake-up over all interleavings of send, receive, timeout and reset: once no resumed thread is pending, a receiver waits only on an empty mailbox and a sender only on a full one |
| MailboxTheorems.RunsRefineQueue | rt-thread/src/ipc.c:1441-1757 | every interleaving is a history of one bounded FIFO queue, in which a send, however long it had to wait, puts in the value its caller passed |
| MailboxTheorems.Verdicts | rt-thread/src/ipc.c:1441-1713 | the result of a call is decided by the queue and the caller's patience alone: RT_EOK, -RT_EFULL, -RT_ETIMEOUT or waiting, each exactly when it should be |
| MailboxTheorems.MailIsConserved | rt-thread/src/ipc.c:1441-1713 | between resets no mail is lost, invented, doubled or reordered: what comes out are the values passed to the calls |
| MailboxTheorems.StepRemembers | rt-thread/src/ipc.c:1441-1713 | while a call waits, its thread record holds what was passed to that call, whatever other threads do |
| MailboxTheorems.NothingAsked | rt-thread/src/ipc.c:1293-1321 | a new mailbox fits the record in which nobody has asked for anything, so every run can start there |
| MailboxTheorems.WaitsAsAsked | rt-thread/src/ipc.c:1492-1513 | a call that waits joins the wait list of its side with its value, what is left of its timeout and the tick it counts from; nothing else changes |
| MailboxTheorems.WakesTheHead | rt-thread/src/ipc.c:1546-1559 | a stored mail wakes the receiver at the head of its list and nobody else; a mail taken wakes the sender at the head |
| MailboxTheorems.RefusalIsLocal | rt-thread/src/ipc.c:1471-1531 | a call that comes back with an error leaves mails, wait lists and all other threads as they were |
| MailboxTheorems.TimesOut | rt-thread/src/thread.c:749-771 | a timeout takes exactly its thread off its list, in order, with -RT_ETIMEOUT, and touches no mail |
| MessageQueue.Queue.constructor | rt-thread/src/ipc.c:1780-1827 | the pool becomes a free list of max_msgs nodes, last node first, and no payload byte changes |
| MessageQueue.Queue.Build | rt-thread/src/ipc.c:1813-1821 | the loop that threads the free list through the pool |
| MessageQueue.CapacityFits | rt-thread/src/ipc.c:1805-1807 | all max_msgs nodes lie inside the pool |
| MessageQueue.Queue.SendEnter | rt-thread/src/ipc.c:1963-2000 | first region of a send: refused, or one node leaves the free list for the sender's hands |
| MessageQueue.Queue.FillByte | rt-thread/src/ipc.c:2001-2002 | a byte of the copy, with interrupts on, reaches the node in hand and nothing else |
| MessageQueue.Queue.Link | rt-thread/src/ipc.c:2004-2038 | second region of a send: the node joins the queue and the first waiter is resumed |
| MessageQueue.Queue.LinkBack | rt-thread/src/ipc.c:2006-2017 | linking at the tail keeps head, tail and all next links right |
| MessageQueue.Queue.LinkFront | rt-thread/src/ipc.c:2095-2101 | linking at the head likewise, including the queue that was empty |
| MessageQueue.Queue.RecvEnter | rt-thread/src/ipc.c:2138-2250 | first region of a receive: a node in hand, a timeout, or the wait list |
| MessageQueue.Queue.TryRecv | rt-thread/src/ipc.c:2172-2250 | one turn of the receive loop |
| MessageQueue.Queue.Rerun | rt-thread/src/ipc.c:2217-2234 | what a resumed receiver does next |
| MessageQueue.Queue.DrainByte | rt-thread/src/ipc.c:2252-2253 | a byte of the copy out, with interrupts on, is the byte of the node in hand |
| MessageQueue.Queue.GiveBack | rt-thread/src/ipc.c:2255-2261 | the node goes back to the free list |
| MessageQueue.Queue.Timeout | rt-thread/src/thread.c:749-771 | a timed-out receiver leaves the wait list with -RT_ETIMEOUT |
| MessageQueue.Queue.Control | rt-thread/src/ipc.c:2279-2325 | reset moves every queued node to the free list and wakes every waiter; nodes in hand stay in hand |
| MessageQueue.Queue.HeadToFree | rt-thread/src/ipc.c:2297-2311 | one node of the reset loop moves from queue to free list |
| MessageQueueSpec.CountsAddUp | rt-thread/src/ipc.c:1963-2256 | queued, free and held nodes add up to max_msgs |
| MessageQueueSpec.HandIsAlone | rt-thread/src/ipc.c:1989-2002 | a node in somebody's hands is in no list and in nobody else's hands |
| MessageQueueSpec.ResetKeeps | rt-thread/src/ipc.c:2279-2325 | a reset keeps the partition, empties the queue and sends every waiter back with -RT_ERROR |
| MessageQueueTheorems.StepKeeps | rt-thread/src/ipc.c:1963-2314 | every step keeps: each node in exactly one place, entry equal to the queue length, queued payloads complete, payloads in hand copied as far as the copy is, no waiter without cause |
| MessageQueueTheorems.RunsRefineDeque | rt-thread/src/ipc.c:1963-2256 | over every interleaving the queue is one double-ended queue: sends enter at the back, urgent sends in front, receives leave from the front with the bytes sent, as many as the caller of the receive had room for |
| MessageQueueTheorems.NodesAreConserved | rt-thread/src/ipc.c:1963-2314 | in every reachable state every node is in exactly one place and the counts sum to max_msgs |
| MessageQueueTheorems.NoLostWakeUp | rt-thread/src/ipc.c:1963-2240 | once no resumed receiver is pending, a receiver waits only on an empty queue |
| MessageQueueTheorems.SendVerdict | rt-thread/src/ipc.c:1963-1998 | a send fails with -RT_ERROR exactly when the message is too long and with -RT_EFULL exactly when every node is queued or in somebody's hands |
| MessageQueueTheorems.SendCompletes | rt-thread/src/ipc.c:2001-2020 | a copy into a node can always be finished: as many bytes as are left and the link later, the message is in the queue, at its end of it, and the sender has nothing in hand |
| MessageQueueTheorems.RecvCompletes | rt-thread/src/ipc.c:2252-2261 | a copy out of a node likewise: the node is free again and nothing else has changed hands |
| MessageQueueTheorems.RecvVerdict | rt-thread/src/ipc.c:2158-2246 | a receive, or a resumed one, returns its error if it was woken with one; otherwise it takes the front message if and only if there is one, for a buffer of the size its caller gave, times out if there is none and its patience is 0, and waits else |
| MessageQueueTheorems.StepRemembers | rt-thread/src/ipc.c:2158-2246 | while a receive waits, its thread record holds the buffer size passed to that call |
| MessageQueueTheorems.NothingAsked | rt-thread/src/ipc.c:1780-1827 | where every thread is idle, any record fits, so every run can start at a new queue |
| MessageQueueTheorems.WaitsAsAsked | rt-thread/src/ipc.c:2195-2215 | a receive that waits joins the wait list with its buffer size, what is left of its timeout and the tick it counts from; nothing else changes |
| MessageQueueTheorems.WakesTheHead | rt-thread/src/ipc.c:2023-2034 | linking a message wakes the receiver at the head and nobody else; no other part of a send or a receive wakes anybody |
| MessageQueueTheorems.TimesOut | rt-thread/src/thread.c:749-771 | a timeout takes exactly its thread off the list with -RT_ETIMEOUT and touches no node |
| MessageQueueTheorems.RefusalIsLocal | rt-thread/src/ipc.c:1963-2234 | a call that comes back with an error leaves nodes, wait list and all other threads as they were |
| Event.Flags.constructor | rt-thread/src/ipc.c:914-932 | no bits, no waiters |
| Event.Flags.Send | rt-thread/src/ipc.c:1028-1110 | bits are set, and one pass over the wait list wakes who is satisfied |
| Event.Flags.Walk | rt-thread/src/ipc.c:1055-1100 | the loop is the recursive pass: each waiter sees the set that earlier CLEAR waiters left |
| Event.Flags.VisitOne | rt-thread/src/ipc.c:1055-1100 | one visit: the waiter is resumed with the bits it receives and leaves the list, or stays where it is |
| Event.Flags.RecvEnter | rt-thread/src/ipc.c:1126-1214 | a receive succeeds at once, times out, or waits with its request recorded |
| Event.Flags.Rerun | rt-thread/src/ipc.c:1216-1235 | a resumed thread returns its error or the bits stored for it |
| Event.Flags.Timeout | rt-thread/src/thread.c:749-771 | a timed-out thread leaves the wait list with -RT_ETIMEOUT |
| Event.Flags.Control | rt-thread/src/ipc.c:1248-1276 | reset clears the bits and wakes everyone with -RT_ERROR |
| EventSpec.PassIsReceives | rt-thread/src/ipc.c:1055-1100 | one send is as if each waiter, front to back, called rt_event_recv with timeout 0: same successes, same bits received, same set left |
| EventSpec.PassKeepsOrder | rt-thread/src/ipc.c:1055-1100 | waiters that stay keep their order |
| EventSpec.TryIsReceive | rt-thread/src/ipc.c:1157-1188 | the abstract steps used there are rt_event_recv itself |
| EventSpec.FirstWokenReceives | rt-thread/src/ipc.c:1048-1100 | the first waiter a send satisfies gets exactly the bits an immediate receive on the new set returns, and leaves the same set |
| EventSpec.SendKeeps | rt-thread/src/ipc.c:1028-1110 | after a send no waiter's AND or OR condition holds on what is left of the set |
| EventSpec.NobodyWaitsInVain | rt-thread/src/ipc.c:1028-1276 | in every reachable state no waiting thread's condition holds on the current set |
| EventSpec.InitialKeeps | rt-thread/src/ipc.c:914-932 | a new event satisfies the invariant |
| EventTheorems.MeetsMeans | rt-thread/src/ipc.c:1157-1172 | the bit tests say what they should: with AND every bit of interest is set, with OR at least one is |
| EventTheorems.TakesMeans | rt-thread/src/ipc.c:1175-1182 | bit by bit, a receive gets the bits of interest that are set, and leaves a bit unless it asked for CLEAR and is interested in it |
| EventTheorems.RecvVerdict | rt-thread/src/ipc.c:1126-1214 | an empty request is an error; one whose condition holds takes its bits; any other times out at once or waits with exactly its request |
| EventTheorems.RerunVerdict | rt-thread/src/ipc.c:1216-1235 | a resumed thread returns its error, or the bits stored for it, and changes nothing else |
| EventTheorems.SendVerdict | rt-thread/src/ipc.c:1028-1110 | no bits are an error; otherwise the set with the new bits goes from waiter to waiter, each whose condition holds on what is left leaves with its bits and clears what it asked to clear, each other stays as it was, and what the last one leaves is the set |
| EventTheorems.TimesOut | rt-thread/src/thread.c:749-771 | a timeout takes exactly its thread off the list with -RT_ETIMEOUT and leaves the bits |
| EventTheorems.ResetVerdict | rt-thread/src/ipc.c:1248-1276 | no bit and no waiter is left; every waiter goes on with -RT_ERROR and nobody else is touched |
| Mutex.Lock.constructor | rt-thread/src/ipc.c:529-549 | a free mutex |
| Mutex.Lock.TakeEnter | rt-thread/src/ipc.c:653-752 | recursive take, take, refusal, or waiting with priority inheritance; the structure holds again in every case, and the hold count agrees with the owner again if and only if this is no retake at a count of 255 |
| Mutex.Lock.Rerun | rt-thread/src/ipc.c:754-768 | a resumed thread owns the mutex or returns its error |
| Mutex.Lock.Release | rt-thread/src/ipc.c:789-880 | refused to anybody but the owner; the last release restores the priority and hands over to the first waiter or frees the mutex |
| Mutex.Lock.Timeout | rt-thread/src/thread.c:749-771 | a timed-out waiter leaves; the owner keeps what it inherited |
| MutexSpec.RetakeIff | rt-thread/src/ipc.c:680-684 | a take leaves the hold count right if and only if the 8-bit counter has room for it |
| MutexSpec.HandOffIff | rt-thread/src/ipc.c:841-860 | after a hand-off the new owner is at least as urgent as every waiter if and only if the head of the list was |
| MutexSpec.TimedOutIff | rt-thread/src/thread.c:749-771 | when a waiter gives up, the owner still deserves the priority it runs at if and only if that is its own or another waiter's |
| MutexTheorems.StepCountsIff | rt-thread/src/ipc.c:653-880 | every step keeps the hold count right, except exactly a take by the owner at 255 |
| MutexTheorems.RunsAreALock | rt-thread/src/ipc.c:653-880 | mutual exclusion over every interleaving: value is 1 exactly when there is no owner, and the owner's own priority is remembered; the hold count is right at every point if and only if no take overflows it, and then takes, hand-offs and releases are a history of one recursive lock |
| MutexTheorems.OwnershipMoves | rt-thread/src/ipc.c:653-880 | RT_EOK from take means owning; ownership leaves a thread only by its own release at a hold count of 1 |
| MutexTheorems.RunsStayFair | rt-thread/src/ipc.c:720-732 | with PRIO waiting the list stays sorted and no waiter is more urgent than the owner, over every interleaving, whether or not the hold count overflows |
| MutexTheorems.StepDeservedIff | rt-thread/src/ipc.c:720-727 | every step leaves the owner at a priority it deserves, except exactly the timeout of the waiter it inherited from |
| MutexTheorems.OwnerRunsAtTheBest | rt-thread/src/ipc.c:720-727 | at every point of a run the owner of a PRIO mutex runs at exactly the more urgent of its own priority and its most urgent waiter's, if and only if no timeout of the run strands it |
| MutexTheorems.TimeoutStrands | rt-thread/src/thread.c:749-771 | three steps that strand an owner: it keeps the priority of a waiter that gave up |
| MutexTheorems.CounterWraps | rt-thread/src/ipc.c:680-684 | 255 takes reach a hold count of 255, and the 256th leaves an owned mutex with a hold count of 0 |
| MutexTheorems.FifoInverts | rt-thread/src/ipc.c:841-860 | with FIFO waiting four calls reach a state where a waiter is more urgent than the owner: inheritance is lost on hand-off |
| MutexTheorems.InitialKeeps | rt-thread/src/ipc.c:529-549 | a new mutex satisfies all three invariants |
| MutexCalls.TakeVerdict | rt-thread/src/ipc.c:653-752 | a free mutex is taken and the taker's priority remembered; the owner takes it once more; anybody else is refused at once or waits in its place on the list, and the owner is then at least as urgent; nothing else changes |
| MutexCalls.ReleaseVerdict | rt-thread/src/ipc.c:789-880 | an error for all but the owner; one take less; with the last one the owner's own priority is back and the first waiter, woken with RT_EOK, owns the mutex, or nobody does |
| MutexCalls.RerunVerdict | rt-thread/src/ipc.c:754-768 | a resumed thread returns its error, and owns the mutex if that is RT_EOK |
| MutexCalls.TimesOut | rt-thread/src/thread.c:749-771 | a timeout takes exactly its thread off the list with -RT_ETIMEOUT; not even the inherited priority changes |
| Semaphore.Sem.constructor | rt-thread/src/ipc.c:198-219 | a semaphore with its initial value and no waiters |
| Semaphore.Sem.TakeEnter | rt-thread/src/ipc.c:323-397 | a token is taken, refused, or waited for |
| Semaphore.Sem.Rerun | rt-thread/src/ipc.c:396-403 | a resumed thread returns its error, or RT_EOK for the token it was handed |
| Semaphore.Sem.Release | rt-thread/src/ipc.c:432-470 | the token goes to the first waiter, or into the 16-bit value |
| Semaphore.Sem.Timeout | rt-thread/src/thread.c:749-771 | a timed-out thread leaves the wait list with -RT_ETIMEOUT |
| Semaphore.Sem.Control | rt-thread/src/ipc.c:482-514 | reset sends every waiter back with -RT_ERROR and sets the value, cut to 16 bits |
| SemaphoreSpec.StepAccounts | rt-thread/src/ipc.c:323-514 | in every step the tokens that come in are still there or went out, if and only if the step is not a release with nobody waiting at the largest value, which loses 2^16 |
| SemaphoreSpec.InitialKeeps | rt-thread/src/ipc.c:198-219 | a new semaphore satisfies the invariant and holds its initial tokens |
| SemaphoreSpec.TokensAreConserved | rt-thread/src/ipc.c:323-514 | over every interleaving of takes, releases, timeouts and resets no token is made up, none is lost but 2^16 by each release that overflows the value, and nobody waits while one is left |
| SemaphoreCalls.TakeVerdict | rt-thread/src/ipc.c:323-397 | a token if there is one, else -RT_ETIMEOUT at once or a place on the wait list |
| SemaphoreCalls.ReleaseVerdict | rt-thread/src/ipc.c:432-470 | the first waiter wakes with RT_EOK and the value stays; with nobody waiting the value is one more, or 0 after 65535 |
| SemaphoreCalls.RerunVerdict | rt-thread/src/ipc.c:396-403 | a resumed thread returns its error and takes nothing more |
| SemaphoreCalls.TimesOut | rt-thread/src/thread.c:749-771 | a timeout takes exactly its thread off the list with -RT_ETIMEOUT and leaves the value |
| SemaphoreCalls.ResetVerdict | rt-thread/src/ipc.c:482-514 | the value is the one given, cut to 16 bits; every waiter goes on with -RT_ERROR and nobody else is touched |
| SmallHeap.HeapInit | rt-thread/src/mem.c:204-257 | no heap if and only if the aligned range does not hold two headers, or lies at address 0 and holds nothing else; otherwise one free block of just the words between them, be it of no words at all |
| SmallHeap.Heap.constructor | rt-thread/src/mem.c:228-254 | one free block up to heap_end |
| SmallHeap.Heap.Malloc | rt-thread/src/mem.c:272-410 | for every request whose search ends, the block list, lfree and used_mem become what the specification says, and no word of any live payload changes |
| SmallHeap.Heap.Search | rt-thread/src/mem.c:305-311 | the search loop with its 32-bit guard finds the block the specification picks |
| SmallHeap.Heap.AdvanceHint | rt-thread/src/mem.c:380-387 | the loop that moves lfree on stops at the next free block or heap_end |
| SmallHeap.Heap.PlugHoles | rt-thread/src/mem.c:156-194 | both coalescing steps, on headers that lie between the payloads, with lfree following |
| SmallHeap.Heap.Free | rt-thread/src/mem.c:546-609 | frees and coalesces; live payloads are untouched |
| SmallHeap.Heap.Realloc | rt-thread/src/mem.c:421-510 | all branches; on success the first min(old, new) words are kept, and other live payloads are untouched |
| SmallHeap.Heap.ShrinkBlock | rt-thread/src/mem.c:471-498 | shrinking in place keeps the data that stays |
| SmallHeap.Heap.MoveBlock | rt-thread/src/mem.c:501-509 | moving copies the data, frees the old block, and leaves everything as it was if there is no room |
| SmallHeap.Heap.Relocate | rt-thread/src/mem.c:503-507 | copying into the new block and freeing the old one damages neither the copy nor other payloads |
| SmallHeapTheorems.RunsKeepHeap | rt-thread/src/mem.c:204-609 | over every run: blocks tile the heap, no two neighbours are free, lfree is a free block or heap_end, used_mem is exactly the span of the used blocks |
| SmallHeapSearch.SearchEndsIff | rt-thread/src/mem.c:305-311 | the search loop ends if and only if the size searched for is no larger than the heap |
| SmallHeapSearch.MallocReturnsIff | rt-thread/src/mem.c:289-311 | rt_malloc comes back, in any state, if and only if the heap has the twelve bytes of the least allocation or the request fails the tests in front of the loop |
| SmallHeapSearch.NeverEnds | rt-thread/src/mem.c:305-311 | where it does not end the guard has wrapped and nothing fits: the loop walks to heap_end and is there again after every further turn |
| SmallHeapSearch.TinyHeapSpins | rt-thread/src/mem.c:204-311 | the range from 1024 to 1052 and a request for four bytes |
| SmallHeapTheorems.StepLowestIff | rt-thread/src/mem.c:380-387 | every call keeps lfree the lowest free block, except exactly a realloc that shrinks in place below it |
| SmallHeapTheorems.RunsKeepLowest | rt-thread/src/mem.c:380-387 | lfree is the lowest free block at every point of a run if and only if no realloc of the run shrinks in place below it |
| SmallHeapTheorems.ShrinkLowestIff | rt-thread/src/mem.c:471-493 | a shrinking realloc keeps lfree lowest if and only if lfree was not behind the block following the one shrunk, and was not heap_end |
| SmallHeapTheorems.TakeFailsIff | rt-thread/src/mem.c:305-311 | in every well-formed state a request fails if and only if no block from lfree on fits |
| SmallHeapTheorems.FirstFitIff | rt-thread/src/mem.c:305-311 | the search is first fit over the whole heap if and only if nothing that fits lies below lfree |
| SmallHeapTheorems.LostIff | rt-thread/src/mem.c:305-311 | a request fails although a free block fits if and only if some do and all of them lie below lfree |
| SmallHeapTheorems.ShrunkBlockIsLost | rt-thread/src/mem.c:471-493 | three calls on a heap of 40 words that lead to such a state, and the request that fails there |
| SmallHeapTheorems.TakeIsFirstFit | rt-thread/src/mem.c:305-311 | with lfree lowest the search is plain first fit: it takes the lowest fitting block and fails only if none fits |
| SmallHeapTheorems.OnlyExactEndRefused | rt-thread/src/mem.c:305-311 | the only sufficiently large free block refused is an exact fit that ends at heap_end |
| SmallHeapTheorems.FreshHeapRefusesAll | rt-thread/src/mem.c:305-311 | so the whole of a fresh heap can never be allocated at once |
| SmallHeapTheorems.MallocCovers | rt-thread/src/mem.c:289-300 | a returned block is live and holds the bytes asked for, if and only if rounding the request does not wrap |
| SmallHeapTheorems.LiveDisjoint | rt-thread/src/mem.c:305-405 | live allocations lie in the heap and never overlap |
| SmallHeapTheorems.FreeUndoesMalloc | rt-thread/src/mem.c:272-609 | freeing what malloc returned restores blocks, lfree and used_mem |
| SmallHeapTheorems.NothingLiveIsInitial | rt-thread/src/mem.c:156-194 | with nothing live the heap is one block again, in whatever order it was freed |
| SmallHeapLive.MallocAddsOne | rt-thread/src/mem.c:272-410 | rt_malloc adds exactly one allocation, not live before, or changes nothing; all others stay live with their sizes |
| SmallHeapLive.FreeRemovesOne | rt-thread/src/mem.c:546-609 | rt_free removes exactly the allocation it is given |
| SmallHeapLive.ReallocReplacesOne | rt-thread/src/mem.c:421-510 | rt_realloc frees its block if and only if the size is 0 or wraps to 0, leaves everything as it was if there is no room, and otherwise returns a live block with the bytes asked for in place of the old one; no other allocation is touched |
| SmallHeapLive.ReallocNull | rt-thread/src/mem.c:448-450 | rt_realloc of NULL is rt_malloc, except that it refuses a size that wraps |
| SmallHeapLive.MallocVerdict | rt-thread/src/mem.c:272-410 | rt_malloc fails exactly for a size of 0, one larger than the heap, or when nothing from lfree on fits; otherwise it hands out the first block that does, cut to size if another block fits into the rest, and max_mem is the highest used_mem has been |
| SmallHeapLive.ReallocVerdict | rt-thread/src/mem.c:421-510 | rt_realloc on a live block fails for a size larger than the heap, frees for 0, succeeds in place for the same size or one enough smaller, and otherwise moves, if and only if some block from lfree on fits; if not, nothing changes |
| SmallHeapLive.RunsKeepLive | rt-thread/src/mem.c:272-609 | over every run an allocation that no call is handed stays live with its size |
| SmallHeapLive.RunsStayPositive | rt-thread/src/mem.c:272-609 | over every run no block is empty |
| SmallHeapLive.PayloadKept | rt-thread/src/mem.c:272-609 | the frame every method of the heap promises means: what is live before and after with the same size has the same contents |
| SmallHeapLive.WrappedMalloc | rt-thread/src/mem.c:289-300 | a request for 2^32 - 1 bytes is granted with twelve |
| SmallHeapLive.WrappedRealloc | rt-thread/src/mem.c:430-446 | asked to make that block 2^32 - 1 bytes long, rt_realloc frees it |
| MemHeap.Heap.constructor | rt-thread/src/memheap.c:50-121 | one free block, a used tail block, one entry on the free list |
| MemHeap.Heap.Alloc | rt-thread/src/memheap.c:138-281 | both lists and both counters become what the specification says; live payloads are untouched |
| MemHeap.Heap.Search | rt-thread/src/memheap.c:169-183 | the walk along next_free stops at the first entry that is large enough |
| MemHeap.Heap.Free | rt-thread/src/memheap.c:495-595 | merges left and right, keeps both lists, and touches no live payload |
| MemHeap.Heap.MergeAround | rt-thread/src/memheap.c:540-578 | both merges with their updates of the free list and of available_size |
| MemHeap.Heap.Unlink | rt-thread/src/memheap.c:215-217 | taking a header off the free list keeps it a ring and changes no other word |
| MemHeap.Heap.Push | rt-thread/src/memheap.c:388-393 | putting a header behind the free-list head keeps it a ring |
| MemHeap.Heap.Realloc | rt-thread/src/memheap.c:284-492 | all branches; the heap is valid again if and only if the call does not misfire; then the first min(old, new) words are kept and other live payloads untouched, and after a misfire the words are exactly those the code writes |
| MemHeap.Heap.GrowBlock | rt-thread/src/memheap.c:350-401 | growing in place moves the free neighbour's header to where 32-bit arithmetic puts it; the words are exactly those written, and unless that wrapped the heap is valid and the data kept |
| MemHeap.Heap.ShrinkBlock | rt-thread/src/memheap.c:419-491 | shrinking splits, merges the remainder with a free neighbour, and keeps the data that stays |
| MemHeap.Heap.MoveBlock | rt-thread/src/memheap.c:408-416 | moving copies the data and frees the old block |
| MemHeapTheorems.RunsKeepHeap | rt-thread/src/memheap.c:50-595 | at every point of every run blocks tile the pool, no two neighbours are free, the free list holds exactly the unused blocks once each, available_size is their sum, and max_used_size is never below what is in use; if and only if no realloc of the run grows in place by a test that wrapped |
| MemHeapTheorems.StepKeepsIff | rt-thread/src/memheap.c:138-595 | each call keeps all that if and only if it is no such realloc |
| MemHeapSpec.HeaderLands | rt-thread/src/memheap.c:350-381 | the moved header lands behind the new payload, or, in a misfire, within twelve bytes in front of the payload, in any case inside the pool |
| MemHeapSpec.GrowKeepsIff | rt-thread/src/memheap.c:350-401 | growing in place leaves a sound heap if and only if the rounded size plus twelve bytes does not wrap |
| MemHeapTheorems.AllocIff | rt-thread/src/memheap.c:148-183 | allocation succeeds if and only if the rounded size is below available_size and some free block is large enough |
| MemHeapTheorems.AllocCovers | rt-thread/src/memheap.c:147-150 | the block returned is live and holds the bytes asked for, if and only if rounding does not wrap |
| MemHeapTheorems.LiveDisjoint | rt-thread/src/memheap.c:138-281 | live allocations lie in the pool and never overlap |
| MemHeapTheorems.FreeUndoesAlloc | rt-thread/src/memheap.c:138-595 | freeing what alloc returned restores the blocks, available_size and the members of the free list |
| MemHeapTheorems.NothingLiveIsInitial | rt-thread/src/memheap.c:535-591 | with nothing live the pool is as it was after initialisation |
| MemHeapLive.AllocAddsOne | rt-thread/src/memheap.c:138-281 | rt_memheap_alloc adds exactly one allocation, not live before, or changes nothing; all others stay live with their sizes |
| MemHeapLive.FreeRemovesOne | rt-thread/src/memheap.c:495-595 | rt_memheap_free removes exactly the allocation it is given |
| MemHeapLive.ReallocReplacesOne | rt-thread/src/memheap.c:284-492 | rt_memheap_realloc frees for a size of 0, leaves everything as it was if there is no room, and otherwise puts one block of at least the rounded size in place of the old one; no other allocation is touched |
| MemHeapLive.ReallocCovers | rt-thread/src/memheap.c:309-310 | what a successful realloc returns is live, lies in the pool if and only if the call does not misfire, and has the bytes asked for if and only if rounding does not wrap |
| MemHeapLive.ReallocVerdict | rt-thread/src/memheap.c:284-492 | a size of 0 frees; one that is not larger always succeeds in place, cutting the block if another fits into the rest; a larger one grows in place if the test on the next block passes; otherwise it moves, and succeeds if and only if the size is below available_size and some free block is as large |
| MemHeapLive.TakeVerdict | rt-thread/src/memheap.c:148-183 | the search succeeds if and only if there is room, and takes the first entry of the free list that is large enough |
| MemHeapLive.TakeSize | rt-thread/src/memheap.c:184-246 | the block handed out is cut to size if another block fits into the rest; max_used_size is the highest pool_size - available_size has been |
| MemHeapLive.ReallocNull | rt-thread/src/memheap.c:300-308 | rt_memheap_realloc of NULL is rt_memheap_alloc |
| MemHeapLive.RunsKeepLive | rt-thread/src/memheap.c:138-595 | over every run without a misfire an allocation that no call is handed stays live with its size |
| MemHeapLive.PayloadKept | rt-thread/src/memheap.c:138-595 | the frame every method promises means: what is live before and after with the same size has the same contents |
| MemHeapLive.WrappedAlloc | rt-thread/src/memheap.c:147-150 | a request for 2^32 - 1 bytes is granted with twelve |
| MemHeapLive.WrappedRealloc | rt-thread/src/memheap.c:309-310 | a live block of 160 bytes, to be made 2^32 - 2 long, is cut down to twelve and returned as a success |
| MemHeapLive.MisfireOverlaps | rt-thread/src/memheap.c:350-401 | every misfire returns a block that runs over the end of the pool; the free header lies inside that block's own header and reaches into its payload, and the free block covers the rest |
| MemHeapLive.MisfireHandsOutAgain | rt-thread/src/memheap.c:138-401 | and the next request that free block has room for gets an address inside the payload just returned |
| MemHeapLive.GrowMisfires | rt-thread/src/memheap.c:350-401 | the same block, to be made 2^32 - 8 long with a free block behind it, grows over the end of the pool |
| SlabPages.PageList.constructor | rt-thread/src/slab.c:327-334 | one run of all pages |
| SlabPages.PageList.Alloc | rt-thread/src/slab.c:236-270 | the list threaded through the pages loses what the specification takes |
| SlabPages.PageList.Release | rt-thread/src/slab.c:272-322 | the list gains what the specification gives, in each of the four ways to join |
| SlabPageSpec.TakeIsSubtraction | rt-thread/src/slab.c:236-270 | allocation removes exactly n consecutive free pages and keeps the runs sorted and maximal |
| SlabPageSpec.GiveIsUnion | rt-thread/src/slab.c:272-322 | release adds exactly the pages given and keeps the runs sorted and maximal |
| SlabPageSpec.TakeIff | rt-thread/src/slab.c:245-263 | allocation fails if and only if no n consecutive pages are free, and otherwise takes the lowest place there is |
| SlabPageSpec.ConsecutiveIff | rt-thread/src/slab.c:245-263 | n consecutive free pages exist if and only if some run is that long |
| SlabPageSpec.OneCanonicalList | rt-thread/src/slab.c:272-322 | a set of free pages has only one such list |
| SlabPageSpec.GiveUndoesTake | rt-thread/src/slab.c:236-322 | giving back what was allocated restores the very same list |
| SlabZoneSpec.ZoneIndexIs | rt-thread/src/slab.c:401-459 | every request below the limit gets an index inside the table, one chunk size per index, at least the request and at most an eighth (or eight bytes) more |
| SlabZoneSpec.NewZoneOk | rt-thread/src/slab.c:628-648 | a new zone has room for two chunks at least, all of them inside it and behind the header |
| SlabZoneSpec.TakeOk | rt-thread/src/slab.c:539-569 | taking a chunk keeps z_nfree = (z_nmax - 1 - z_uindex) + length of the free list |
| SlabZoneSpec.TakeBusy | rt-thread/src/slab.c:539-569 | the chunk taken was not in use, and nothing else changed hands |
| SlabZoneSpec.GiveOk | rt-thread/src/slab.c:830-842 | returning a chunk keeps that equation |
| SlabZoneSpec.GiveBusy | rt-thread/src/slab.c:830-842 | exactly that chunk is no longer in use |
| SlabZoneSpec.ChunksApart | rt-thread/src/slab.c:556-560 | chunks of a zone do not overlap |
| SlabZoneSpec.FullyFreeIff | rt-thread/src/slab.c:848-855 | z_nfree equals z_nmax if and only if nothing in the zone is in use |
| SlabUsage.ZoneTaken | rt-thread/src/slab.c:601-622 | marking the pages of a new zone keeps the page table truthful |
| SlabUsage.ZoneGiven | rt-thread/src/slab.c:885-897 | so does clearing them and releasing the pages |
| SlabUsage.LargeTaken | rt-thread/src/slab.c:493-504 | so does recording a large block |
| SlabUsage.LargeGiven | rt-thread/src/slab.c:795-817 | so does releasing one |
| SlabSpec.Recovered | rt-thread/src/slab.c:825-828 | the offset in the page table leads from any byte of any chunk to the base of its zone |
| SlabSpec.LiveSmallIff | rt-thread/src/slab.c:825-842 | the live small allocations are exactly the chunks in use |
| SlabTheorems.RunsKeepSlab | rt-thread/src/slab.c:478-904 | over every run: a zone is on the list of its index exactly while it has room, its pages lead back to it, at most ZONE_RELEASE_THRESH zones are in reserve and zone_free_cnt counts them, and free pages, zones and large blocks never overlap |
| SlabTheorems.InitialKeeps | rt-thread/src/slab.c:344-395 | the heap after initialisation satisfies all that |
| SlabTheorems.MallocAddsOne | rt-thread/src/slab.c:478-667 | rt_malloc adds exactly one live allocation, not live before, or changes nothing |
| SlabTheorems.FreeRemovesOne | rt-thread/src/slab.c:771-904 | rt_free removes exactly the allocation it is given, even when a zone is retired |
| SlabTheorems.LiveDisjoint | rt-thread/src/slab.c:478-904 | no byte belongs to two live allocations or to a free page |
| SlabCalls.LargeVerdict | rt-thread/src/slab.c:493-504 | a large request fails if and only if not so many pages in a row are free, and otherwise takes exactly those, the lowest, and no more |
| SlabCalls.SmallVerdict | rt-thread/src/slab.c:539-667 | a small request is served from the first zone on its list, else from the reserve, else from a new zone on the lowest pages free in a row; it fails if and only if there is none of these, and then changes nothing |
| SlabCalls.FreeLargeVerdict | rt-thread/src/slab.c:795-817 | exactly the pages of the block become free and no zone changes |
| SlabCalls.FreeSmallVerdict | rt-thread/src/slab.c:825-900 | the zone stays unless its last chunk comes back while another zone with the same chunks has room; then it goes into the reserve, or, with two there, its pages become free |
| SlabCalls.NoPageIsLost | rt-thread/src/slab.c:478-904 | over every run each page is free, or in a zone, or in a large block |
| SlabCalls.BootedTracked | rt-thread/src/slab.c:344-395 | the heap after initialisation loses none either |
| SlabAlignment.MallocCovers | rt-thread/src/slab.c:493-569 | what is returned holds the bytes asked for; a size whose rounding wraps is refused |
| SlabAlignment.AlignedIff | rt-thread/src/slab.c:149-153 | a request for a power of two, small or large, is answered with an address aligned to it if and only if the first page of the run or zone it is served from is so aligned; the state before the call tells which page that is |
| SlabAlignment.PowerOfTwoAligned | rt-thread/src/slab.c:149-153 | a power of two up to a page is always served aligned |
| SlabAlignment.PagesMisaligned | rt-thread/src/slab.c:344-391 | on a heap of 17 pages as initialised, a request for 8192 bytes is served with pages and misaligned |
| SlabAlignment.ChunkMisaligned | rt-thread/src/slab.c:344-391 | on one of 16385 pages it is served with a chunk of a zone and misaligned |
| Bits.FilledIff | rt-thread/src/slab.c:635 | the bit test of the source holds exactly for powers of two |
| SlabTheorems.TableFits | rt-thread/src/slab.c:379-391 | the page table fits in front of a heap of any size, at its first page |
| Slab.ZoneSizing | rt-thread/src/slab.c:374-377 | the doubling loop gives 32, 64 or 128 KB |
| Slab.HeapInit | rt-thread/src/slab.c:344-395 | no heap if and only if no whole page lies in the range; otherwise the heap starts at a page boundary with the pages in between |
| Slab.Heap.constructor | rt-thread/src/slab.c:362-391 | free pages without those of the page table, no zones, and the zone size that the number of pages gives |
| Slab.Heap.Malloc | rt-thread/src/slab.c:478-667 | the code computes the specification in all branches |
| Slab.Heap.TakeChunk | rt-thread/src/slab.c:539-569 | a chunk of the first zone on a list, which leaves the list when it is full |
| Slab.Heap.ObtainZone | rt-thread/src/slab.c:590-623 | a zone from the reserve, or new pages, marked in the page table |
| Slab.Heap.Free | rt-thread/src/slab.c:771-904 | the code computes the specification in all branches; NULL is ignored |
| Slab.Heap.GiveUp | rt-thread/src/slab.c:854-900 | an entirely free zone leaves its list unless it is alone there, and more than two in reserve releases one |
| Timers.Search | rt-thread/src/timer.c:342-370 | on every row the multi-level search stops where a linear scan of that row stops |
| Timers.TimerList.Start | rt-thread/src/timer.c:296-412 | the rows become what the specification says |
| Timers.TimerList.LinkRows | rt-thread/src/timer.c:376-391 | masked and shifted as the skip-list mask says, the start counter decides how many rows get the timer; the lowest always does |
| Timers.TimerList.Remove | rt-thread/src/timer.c:121-129 | the timer leaves every row |
| Timers.TimerList.Stop | rt-thread/src/timer.c:422-447 | stopping succeeds exactly for active timers |
| Timers.TimerList.Check | rt-thread/src/timer.c:494-553 | the expiry loop fires exactly the due front of the bottom row |
| Timers.TimerList.FireOnce | rt-thread/src/timer.c:507-546 | one round: unlink, and rearm or stop |
| TimerSpec.LaterIs | rt-thread/src/timer.c:359-363 | 32-bit ticks less than half the range apart compare like the true times |
| TimerSpec.SlotIs | rt-thread/src/timer.c:345-367 | the scan stops at the first later deadline, behind all equal ones |
| TimerSpec.InsertSorted | rt-thread/src/timer.c:354-366 | insertion keeps the deadlines sorted with ties in start order |
| TimerSpec.StartNested | rt-thread/src/timer.c:379-391 | every row stays a subsequence of the row below |
| TimerSpec.StartKeeps | rt-thread/src/timer.c:296-412 | a start keeps the whole skip-list invariant |
| TimerSpec.UnlinkKeeps | rt-thread/src/timer.c:121-129 | so does unlinking |
| TimerTheorems.RunsKeepSkipList | rt-thread/src/timer.c:296-553 | over every run, for every number of rows and across every wrap of the tick, the rows are nested and the bottom row sorted, holding exactly the active timers |
| TimerTheorems.CheckFiresWhatIsDue | rt-thread/src/timer.c:494-553 | one check fires exactly the timers whose deadline is reached, each once, by deadline and start order; rearms periodic ones, stops one-shots, touches no other, and leaves nothing due |
| TimerTheorems.NextTimeoutIsEarliest | rt-thread/src/timer.c:108-119 | the next timeout reported is the earliest deadline |
| TimerTheorems.InitialKeeps | rt-thread/src/timer.c:679-687 | empty rows satisfy the invariant |
| TimerTheorems.StartVerdict | rt-thread/src/timer.c:296-412 | a started timer, one-shot or periodic, running or not, is active with its deadline its period from now, and in as many rows as its height says; all others stay as and where they were |
| TimerTheorems.StopVerdict | rt-thread/src/timer.c:422-447 | a stopped timer is inactive and in no row; all others stay as and where they were |
| TimerTheorems.HeightMeans | rt-thread/src/timer.c:376-391 | a timer is k rows up if and only if there are so many and the k lowest groups of bits of its start number are clear under the mask |
| Bitmap.FfsIsLowest | rt-thread/src/kservice.c:1286-1330 | the table-driven __rt_ffs returns the least set bit counted from 1, and 0 exactly for 0 |
| SchedulerSpec.HighestIsLeast | rt-thread/src/scheduler.c:162-184 | while bitmaps and lists agree, the lookup gives the least priority whose list is not empty, with one or two levels; no bit set means no thread ready |
| SchedulerSpec.MarkAgrees | rt-thread/src/scheduler.c:704-717 | inserting a thread keeps bitmaps and lists in agreement |
| SchedulerSpec.UnmarkAgrees | rt-thread/src/scheduler.c:798-811 | so does removing the last thread of a priority |
| SchedulerSpec.HighestReady | rt-thread/src/scheduler.c:162-184 | the thread found is ready and none that is ready is more urgent |
| SchedulerSpec.ScheduleKeeps | rt-thread/src/scheduler.c:411-523 | rt_schedule keeps the invariant |
| SchedulerSpec.PriorityKeeps | rt-thread/src/thread.c:572-613 | a priority change keeps it, ready or not |
| SchedulerTheorems.RunsKeepScheduler | rt-thread/src/scheduler.c:411-940 | over every run: RUNNING means current, READY means on the list of its own priority, once, and every bit says whether its list is empty |
| SchedulerTheorems.ReadyMeansListed | rt-thread/src/scheduler.c:688-815 | the same for a single thread and list, both directions |
| SchedulerTheorems.MostUrgentRuns | rt-thread/src/scheduler.c:411-523 | after an unlocked rt_schedule the current thread is running and at least as urgent as every ready one |
| SchedulerTheorems.RoundRobin | rt-thread/src/scheduler.c:411-523 | among equally most urgent threads the one at queue position i is current after i + 1 schedules |
| SchedulerTheorems.InitialKeeps | rt-thread/src/scheduler.c:191-239 | an empty scheduler satisfies the invariant |
| SchedulerCalls.SuspendVerdict | rt-thread/src/thread.c:657-696 | rt_thread_suspend succeeds exactly on a ready or running thread, which is then suspended and on no ready list; no other thread, no order on a list and not the current thread change |
| SchedulerCalls.ResumeVerdict | rt-thread/src/thread.c:706-740 | rt_thread_resume succeeds exactly on a suspended thread, which is then last on the list of its priority (the current thread runs on); everything else is as it was |
| SchedulerCalls.StartupVerdict | rt-thread/src/thread.c:288-320 | a started thread is ready with its initial priority, last on that list; everything else is as it was |
| SchedulerCalls.PriorityVerdict | rt-thread/src/thread.c:572-613 | the thread has the new priority and is in the state it was in; a ready one is last on its new list and on no other |
| SchedulerCalls.ScheduleIdle | rt-thread/src/scheduler.c:411-433 | locked, before the start or with nothing ready rt_schedule changes nothing |
| SchedulerCalls.ScheduleVerdict | rt-thread/src/scheduler.c:411-523 | a running thread more urgent than all ready ones stays; otherwise the first of the most urgent ready ones runs, and the one switched out is last on its list, if it was running; nothing else changes |
| SchedulerCalls.SleepVerdict | rt-thread/src/thread.c:487-517 | after rt_thread_sleep, not locked and with another thread ready, the sleeper is suspended, on no list and not current, and the most urgent of the others runs |
| SchedulerCalls.WakeVerdict | rt-thread/src/thread.c:749-771 | a thread that times out is ready or running, and, not locked, the most urgent thread runs |
| SchedulerCalls.CriticalVerdict | rt-thread/src/scheduler.c:855-940 | entering and leaving count; leaving the last level, and nothing else, schedules |
| SchedulerCalls.StartVerdict | rt-thread/src/scheduler.c:246-270 | the first of the most urgent ready threads runs and is off its list; nobody else changes |
| Scheduler.Kernel.InsertThread | rt-thread/src/scheduler.c:688-722 | list, group and table after an insertion |
| Scheduler.Kernel.RemoveThread | rt-thread/src/scheduler.c:785-815 | list, group and table after a removal |
| Scheduler.Kernel.HighestThread | rt-thread/src/scheduler.c:162-184 | the bitmap lookup and the head of the list found |
| Scheduler.Kernel.Schedule | rt-thread/src/scheduler.c:411-523 | all branches of rt_schedule; the invariant holds again |
| Scheduler.Kernel.Start | rt-thread/src/scheduler.c:246-270 | the first thread |
| Scheduler.Kernel.Resume | rt-thread/src/thread.c:706-740 | only a suspended thread is resumed |
| Scheduler.Kernel.Suspend | rt-thread/src/thread.c:657-696 | ready and running threads are suspended, others refused |
| Scheduler.Kernel.Startup | rt-thread/src/thread.c:288-320 | priority attributes are set, then the thread resumed |
| Scheduler.Kernel.ChangePriority | rt-thread/src/thread.c:572-613 | a ready thread moves to its new list |
| Scheduler.Kernel.ThreadTimeout | rt-thread/src/thread.c:749-771 | a waiting thread becomes ready and the scheduler runs |
| Scheduler.Kernel.Sleep | rt-thread/src/thread.c:487-517 | the current thread gives way |
| Scheduler.Kernel.EnterCritical | rt-thread/src/scheduler.c:855-870 | one more level of locking |
| Scheduler.Kernel.ExitCritical | rt-thread/src/scheduler.c:915-940 | leaving the last level schedules |
| Format.Vsnprintf | rt-thread/src/kservice.c:777-1040 | the length returned is that of the whole text whatever the size; the buffer holds the first min(length, size - 1) characters and a final zero, and nothing else is written; an address range that would wrap is cut |
| Format.PrintNumber | rt-thread/src/kservice.c:606-775 | all padding loops together put out the text of the specification |
| Format.Convert | rt-thread/src/kservice.c:676-683 | the digits of a 32-bit number never exceed the temporary buffer |
| Format.SkipAtoi | rt-thread/src/kservice.c:588-595 | the loop computes the specified value and position |
| Format.ParseField | rt-thread/src/kservice.c:820-883 | flags, width, precision and qualifier, including those taken from the arguments |
| Format.PutChar | rt-thread/src/kservice.c:890-911 | the padding of a character |
| Format.PutString | rt-thread/src/kservice.c:913-943 | the padding and clipping of a string |
| FormatTheorems.AtoiInvertsPrinting | rt-thread/src/kservice.c:588-595 | skip_atoi reads back every printed number and stops right behind it |
| FormatTheorems.NumeralReadsBack | rt-thread/src/kservice.c:568-585 | digits put out last first and reversed have the value they were made from |
| FormatTheorems.NumberReadsBack | rt-thread/src/kservice.c:606-775 | whatever flags and width, a number printed in base 10 or 16 reads back as itself if and only if the precision is not 0 or the number is 0 |
| FormatTheorems.WidthHolds | rt-thread/src/kservice.c:684-772 | the length is the width or what sign, precision and digits need, whichever is more |
| FormatTheorems.DecimalReadsBack | rt-thread/src/kservice.c:777-1040 | the format "%d" turns every 32-bit argument into text that reads back as its signed value |
| FormatTheorems.EscapedIsLiteral | rt-thread/src/kservice.c:810-818 | a text with its percent signs doubled comes out as it was |
| FormatCalls.SpecReadsBack | rt-thread/src/kservice.c:820-883 | reading inverts writing: whatever flags, width, precision (each digits, a star or left out) and qualifier a specification is written with, those are what the conversion gets, and the stars have taken their arguments in order |
| FormatCalls.NumberVerdict | rt-thread/src/kservice.c:967-1025 | anywhere in a format an integer conversion prints text that reads back as its argument (signed for d and i, the low half behind h) if and only if the precision is not 0 or the number is 0, with sign, digits, fill and case as flags, width and precision ask |
| FormatCalls.MeantMeans | rt-thread/src/kservice.c:1000-1019 | the number meant by an argument is the one in its range, signed or not, of 32 or 16 bits, with the same low bits |
| FormatCalls.StringVerdict | rt-thread/src/kservice.c:913-943 | %s prints the first characters of its string, as many as a precision above 0 allows, or (NULL), filled with blanks on the side the flag says |
| FormatCalls.CharVerdict | rt-thread/src/kservice.c:890-911 | %c prints the low 8 bits as a character, filled likewise |
| FormatCalls.PointerVerdict | rt-thread/src/kservice.c:945-960 | %p prints the address in base 16; without width and precision exactly eight digits |
| FormatCalls.OtherVerdict | rt-thread/src/kservice.c:962-998 | %% prints a percent sign; an unknown conversion prints itself behind one; a format that ends early prints one; none reads an argument |
| FormatCalls.OctalIff | rt-thread/src/kservice.c:568-585 | %o prints the octal numeral of its argument if and only if that is below 8, since the code divides by 16 |

## Left out

Weaker than the code, or with a condition of their own:

- SmallHeap.Heap.Malloc: accepts exactly the requests whose search ends (`MallocReturnsIff`); the others have no result.
- SmallHeap.Heap.Free: the address is NULL, that of a live block, or one behind the heap, which the code ignores, as the code's assertions and its checks of the header demand.
- SmallHeap.Heap.Realloc: the same addresses; a NULL address is passed on to `rt_malloc`, with its condition.
- MemHeap.Heap.Realloc: assumes a pool of at most 2^32 bytes.
- MemHeapLive.RunsKeepLive: covers runs without a misfire; after one, `MisfireHandsOutAgain` shows that allocations may overlap.
- MemHeap.Heap.constructor: requires a pool that holds two headers, as the code's arithmetic does.
- TimerSpec.StartKeeps: relies on the bound the code asserts for the period and on outstanding deadlines within half the tick range of the new one.
- TimerTheorems.CheckFiresWhatIsDue: relies on deadlines less than half the tick range away, callbacks that touch no timer, a tick that does not advance during the check, and periods above 0.
- Scheduler.Kernel.Start: assumes that some thread is ready.
- Scheduler.Kernel.ThreadTimeout: does not model the error field of the thread, which no scheduling decision reads.
- Scheduler.Kernel.Sleep: models how the thread gives way, not its timer nor the error it clears when it comes back.
- Scheduler.Kernel.EnterCritical: assumes that the lock counter does not overflow.
- Format.Vsnprintf: the length is a natural number, not cut to 32 bits, and the text is assumed not to run through the whole address space; overflow of widths and precisions, undefined in C, is not modelled.
- IntrusiveList.Node.InsertAfter: takes the ring as a ghost argument; the lists in the other modules are sequences and do not go through these objects.

Not modelled, and why:

- In the two heaps memory is counted in 32-bit words, so payloads are compared by words; all offsets in the code are multiples of four bytes. The two halves of the first header word of `mem.c`, magic and used, are one word.
- `heap_end->prev` in `mem.c` is not kept up to date by the code and is not tracked. `memheap.c` puts the header of the free list inside the heap object; the model puts it in front of the pool.
- Zone headers and free-chunk links of the slab allocator are records beside the pages, not words inside them; its `rt_realloc`, `rt_calloc` and byte statistics are left out. The code does not clear the page table it takes from the page allocator, and so relies on memory that reads as zero; the model starts with every entry free.
- Locks inside the allocators, hooks, debug output and parameter assertions: an allocator call is one step.
- Thread deletion, signals and `-RT_EINTR`, IPC object deletion, and suspending or resuming a waiting thread from outside.
- One mutex at a time, with no other changes of priority: inheritance over several mutexes is not recomputed by the code.
- Context switching, stacks and stack checks, thread exit, the SMP branches.
- The thread timer is a step of its own in the IPC models; the timer list and the scheduler are not composed with them.
- Soft timers, timer control, `rt_tick_set`, and a one-shot timer restarted from its own callback.
- Names, allocation and registration of kernel objects; `mempool.c`, `object.c`, `device.c`, `irq.c`, `idle.c`, `components.c`: easy members only.
- `rt_kprintf`, `rt_snprintf` and the string and memory functions of `kservice.c`; the 64-bit and `#` variants of the formatter, which are switched off.
- Drivers, board support, vendor libraries and the Python build tools.
