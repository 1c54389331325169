# A model of the NFC stack's kernel and device manager

The NFC stack runs on a small kernel (GKI) that gives it timers, buffers, mailboxes and tasks; above it the device
manager drives RF discovery, parameters of the controller and the delivery of NDEF messages. This project models
the stateful parts of both and proves what they promise over every input and every run. Build constants are those of
the headers: the vendor extensions are on, there are fifteen tasks with three timers each, ten buffer pools, and the
system tick stops after ten idle ticks. `dafny verify dfyconfig.toml` checks everything.

Operations that change state in the source are methods of classes with the same fields; each is proved against a
function of the old state, and the properties are proved about those functions as lemmas.

| file | what it models | main result |
|---|---|---|
| TaskTimers.dfy | task timers, decremented only when the nearest is due | every run fires and reloads the same timers as a countdown on every tick; no task touches another's; the system tick never stops while a timer runs |
| TimerList.dfy | doubly linked delta queues | they represent absolute times under add, remove and update; when the count of expired entries falls short |
| Buffers.dfy | buffers, free queues, mailboxes, queues, all intrusive lists | every buffer is in exactly one place, free and taken add up to the pool |
| PoolList.dfy | the list of pools and their layout in memory | a request is served by a large enough pool exactly when the list is in order; addresses lead back to their buffers exactly when the distance fits |
| Mailbox.dfy | senders and one receiving task, as interleaved atomic steps | no wake-up and no event is lost, and everything that was sent arrives |
| Discovery.dfy | the RF discovery state machine (section 5.2 of the NFC Forum NCI Technical Specification) | where every event leads, what it makes the host say and send; exactly when the order of response and notification matters, and by which steps a stop gets forgotten; each stop is answered at most once; the guard timer |
| Arbitration.dfy | which module is granted which discovery bits | what is granted to whom, by the requests alone; exactly when listening on NFC-A clashes |
| SetConfig.dfy | the cache of controller parameters, the in-place filter, the pending mask | exactly when cache and controller agree; the mask is a queue; exactly when lists of applications are cut short |
| NdefDispatch.dfy | handlers and the delivery of messages | everybody a record is for is called exactly once, in order |
| Crc.dfy | the table-driven checksum | it is the bitwise CRC-16, with its guarantees of detection |
| Snoop.dfy | the ring buffer and the packet log in it | a bounded byte sequence; headers read back; exactly when records stay whole |
| Handles.dfy | who holds which discovery handle | one holder each, over every run; who is served, and exactly when an entry is lost, by counting beforehand |

## Where the code departs from its intent

The model does what the code does; these are the places where that is not what its comments and documentation say, each
with the exact condition.

- An update that hits an expiry exactly does not count the entries tied to it
  (`Deltas.ReportedCount`, `Deltas.TieIsNotReported`).
- Updates of several ticks restart a continuous timer at its full period, whatever it was overshot by
  (`Countdown.AdvanceVersusTicks`); the timers that fire are still the right ones (`Countdown.FiredVersusTicks`).
- A task made ready again takes up the timers of its earlier life (`TaskTimers.RevivedExactly`).
- Removing a buffer from an empty queue searches from in front of the null pointer
  (src/gki/common/gki_buffer.cc:756-761); `Buffers.Kernel.RemoveFromQueue` reports a fault exactly then.
- The fixed pools are not sorted by size, which is harmless only as long as the last stays restricted
  (`PoolList.ShippedPoolsAreOrdered`); making a pool public can break the order (`PoolList.PermissionKeepsOrderExactly`).
- The three largest sizes that a new pool may have wrap its distance between buffers around to zero. Its buffers then all
  lie at one address (`PoolList.BuffersApartExactly`), none can be found again
  (`PoolList.FindInvertsExactlyWhenStrideFits`), and since the chain of free buffers is a single one, the second request
  finds it empty below its count, the case that `Buffers.Kernel.CountsTaken` excludes for pools whose buffers are apart.
- A deactivation whose response comes last is reported as the host's own and as one to idle
  (`Discovery.PollOrderExactly`, `Discovery.ListenOrderExactly`).
- In IDLE, after an activation that was not expected, a successful response that comes before the notification leaves
  everything as it is, while one that comes after it goes on (`Discovery.IdleOrderExactly`).
- Stops and releases of exclusive control can stay unanswered. `Discovery.StepForgetsExactly` says by which steps, from any
  state, and `Discovery.ForgottenSince` that over a run there are no others; `Discovery.CanStillBeAnswered` says that what
  it does not count as forgotten can be answered. The cases in full: a stop or release that meets a deactivation to sleep
  (`Discovery.StopIsLeftOwedExactly`, `Discovery.ReleaseIsLeftOwedExactly`, with `Discovery.StopDuringSleepIsLeftOwed` as
  a witness); one in IDLE that meets the response before the notification (`Discovery.StopInIdleExactly`); and those that
  come at the wrong time (`Discovery.StopIsTakenUpExactly`, `Discovery.ReleaseIsTakenUpExactly`, with the release of
  control that was taken with nothing offered as a witness in `Discovery.ExclusiveEndsExactly`).
- An entry that asks for tag emulation and for ISO-DEP at once is granted both (`Arbitration.ClashExactlyWhenAskedFor`).
- The Listen B application type is compared with the value before it when the manager sets it
  (`SetConfig.OneEntryKeepsAgreementExactly`, `SetConfig.AgreementKeptExactly`, `SetConfig.HarmShowsBeforehand`, with
  `SetConfig.ApplicationTypeClobbersItsNeighbour` as a witness).
- A list that the controller does not accept has changed the cache all the same (`SetConfig.RejectedListExactly`,
  `SetConfig.RejectedDistinctListExactly`).
- The list of an application is cut to the length of its changes without being compacted
  (`SetConfig.ApplicationChangesSentExactly`).
- Evicting a packet from the log leaves its last byte behind (`Snoop.EvictKeepsRecordsExactly`).
- A registration whose listening fails half way can leave a discovery entry in use that nobody holds
  (`DiscoveryHandles.RegisterLosesExactly`).

## Model

| member | source | states |
|---|---|---|
| TaskTimers.TaskTimers.Play | src/gki/common/gki_time.cc:185-540 | over every sequence of start, stop, update, create and exit calls, of any lengths, the lazily decremented timers fire, reload and expire at the same calls as timers that count down on every tick, up to the first call whose 32-bit counters would not fit or that makes a task ready while timers of an earlier life are stored for it |
| TaskTimers.TaskTimers.Perform | src/gki/common/gki_time.cc:185-540 | the same for one call: the visible timers become those of the reference, and what fires is what fires there |
| TaskTimers.TasksAreApart | src/gki/common/gki_time.cc:185-540 | over every run of calls the timers of a task are those that its own calls, the ticks and its coming and going make: leaving out the calls of all other tasks changes nothing for it |
| TaskTimers.StepOfOneTask | src/gki/common/gki_time.cc:185-540 | the same for one call, with the timers that fire: a call that concerns a task acts on its three timers as if there were no others, any other leaves them alone |
| TaskTimers.OwnSlot | src/gki/common/gki_time.cc:185-347 | a start arms the slot of that timer of the calling task itself, with its ticks and its period, exactly if the task is live; a stop empties it |
| TaskTimers.OtherCalls | src/gki/common/gki_time.cc:369-540 | ticks count every running timer down and fire those exhausted; a task that is made ready joins the live ones; one that exits leaves them, and its timers go |
| TaskTimers.TaskTimers.constructor | src/gki/common/gki_time.cc:47-89 | no timer runs, no tick is owed |
| TaskTimers.TaskTimers.StartTimer | src/gki/common/gki_time.cc:185-275 | in terms of naive remaining time the timer of the calling task, or of task 14 for a thread that is no task, gets its ticks (at least one, saturating), nobody else changes, the time not yet charged is untouched; the system tick is started exactly for a first timer that does not merely cancel a pending stop |
| TaskTimers.TaskTimers.InstallTimer | src/gki/common/gki_time.cc:225-272 | storing the ticks plus the uncharged time, and moving the next service forward, keeps every running timer beyond the uncharged time and not before the next service |
| TaskTimers.TaskTimers.StartTick | src/gki/common/gki_time.cc:208-224 | the tick callback is told to start unless the delayed stop was pending, which is cancelled instead |
| TaskTimers.TaskTimers.AdjustTimerCount | src/gki/common/gki_time.cc:933-945 | the next service moves only forward in time and the uncharged time stays the same |
| TaskTimers.TaskTimers.StopTimer | src/gki/common/gki_time.cc:290-347 | removes exactly that timer of the calling task, or of task 14 for a thread that is no task; the inactivity countdown starts exactly when none is left and the system tick runs |
| TaskTimers.TaskTimers.TimerUpdate | src/gki/common/gki_time.cc:369-540 | equals one update of the reference; the system tick is stopped only when no timer runs, and skipping the service on that path loses nothing |
| TaskTimers.TaskTimers.InactivityUpdate | src/gki/common/gki_time.cc:387-401 | when the inactivity delay ends, and what the tick callback is told then |
| TaskTimers.TaskTimers.Service | src/gki/common/gki_time.cc:409-540 | charges the whole elapsed time once to each running timer of a live task, fires exactly the ones it exhausts, and sets the next service to the nearest timer |
| TaskTimers.TaskTimers.ServiceSlot | src/gki/common/gki_time.cc:439-459 | one step of the service loop keeps the part already charged and the minimum so far |
| TaskTimers.TaskTimers.IsTimerRunning | src/gki/common/gki_time.cc:103-132 | true exactly when some timer of some task is stored as running |
| TaskTimers.TaskTimers.CreateTask | src/gki/ulinux/gki_ulinux.cc:202-288 | a task that is made ready adds no timers and takes none away |
| TaskTimers.TaskTimers.ExitTask | src/gki/ulinux/gki_ulinux.cc:1159-1179 | a task that exits takes its three timers with it |
| TaskTimers.StartView | src/gki/common/gki_time.cc:225-265 | adding the uncharged time to the stored ticks is starting the timer now in the naive countdown |
| TaskTimers.StartCovered | src/gki/common/gki_time.cc:225-272 | after a start the next service is still no later than any running timer |
| TaskTimers.StopView | src/gki/common/gki_time.cc:297-327 | clearing a slot removes one timer of the countdown and uncovers none |
| TaskTimers.CreateView | src/gki/ulinux/gki_ulinux.cc:202-288 | making a task ready is invisible to the countdown |
| TaskTimers.RevivedExactly | src/gki/ulinux/gki_ulinux.cc:202-288 | making a task ready is invisible to the countdown if and only if it was ready already or no timers are stored for it; otherwise those run again, with the time not charged yet taken off |
| TaskTimers.ExitView | src/gki/ulinux/gki_ulinux.cc:1159-1179 | a dead task's timers are those the countdown forgets |
| TaskTimers.WaitView | src/gki/common/gki_time.cc:369-407 | before the nearest expiry an update that charges nothing equals counting everything down, and nothing fires |
| TaskTimers.ServiceView | src/gki/common/gki_time.cc:409-540 | charging uncharged and new ticks together equals counting them down, with the same timers firing |
| Countdown.AdvanceVersusTicks | src/gki/common/gki_time.cc:439-526 | one update of `n` ticks agrees with `n` single ticks if and only if each continuous timer that expires is overshot by a whole number of its periods |
| Countdown.FiredVersusTicks | src/gki/common/gki_time.cc:439-526 | the timers that fire in a late update are exactly those that single ticks would have fired at least once |
| Countdown.TicksClosedForm | src/gki/common/gki_time.cc:439-526 | what any number of single ticks leaves of every timer |
| TimerList.TimerListQ.Update | src/gki/common/gki_time.cc:645-693 | every delta is charged as by subtracting the step from all absolute times; the result is the number of reported entries modulo the 16-bit counter; order, links and `last_ticks` stay right |
| TimerList.TimerListQ.UpdateEntries | src/gki/common/gki_time.cc:652-692 | the same without the counter's width |
| TimerList.TimerListQ.ChargeRest | src/gki/common/gki_time.cc:665-680 | the loop that takes a shrinking number of ticks off one entry after the other has charged the whole list when it stops |
| TimerList.TimerListQ.SkipExpired | src/gki/common/gki_time.cc:652-660 | entries that are due already are counted and left alone |
| TimerList.TimerListQ.GetRemainingTicks | src/gki/common/gki_time.cc:710-738 | the absolute ticks until an entry is due, 0 for an entry in no list |
| TimerList.TimerListQ.Add | src/gki/common/gki_time.cc:758-831 | the entry is filed at its absolute time, with links in both directions, and a negative time is ignored |
| TimerList.TimerListQ.Append | src/gki/common/gki_time.cc:771-790 | the tail insertion when nothing is due later |
| TimerList.TimerListQ.InsertInside | src/gki/common/gki_time.cc:790-813 | the insertion before the first entry due no earlier, which gives up the new entry's delta |
| TimerList.TimerListQ.FindSuccessor | src/gki/common/gki_time.cc:792-799 | the search stops inside the list, at the first entry due no earlier, with the passed ticks taken off |
| TimerList.TimerListQ.LinkBefore | src/gki/common/gki_time.cc:801-811 | both kinds of insertion leave a well-formed doubly linked list |
| TimerList.TimerListQ.Remove | src/gki/common/gki_time.cc:847-911 | the entry leaves the list, its ticks go to its successor or off `last_ticks`, and it is marked unused; a null or unused entry changes nothing |
| TimerList.TimerListQ.BequeathTicks | src/gki/common/gki_time.cc:857-864 | who inherits the ticks of an entry that goes |
| TimerList.TimerListQ.Unlink | src/gki/common/gki_time.cc:866-896 | all four positions of the entry leave a well-formed list without it |
| TimerList.TimerListQ.constructor | src/gki/common/gki_time.cc:596-602 | an empty list |
| TimerList.TimerEntry.constructor | src/gki/common/gki_time.cc:617-622 | an entry in no list |
| TimerList.UpdateElapses | src/gki/common/gki_time.cc:665-680 | an update by `n` takes every entry's remaining ticks `s` to max(0, s - n) |
| TimerList.AddKeepsOthers | src/gki/common/gki_time.cc:758-831 | a new entry is due after exactly its own ticks and no other entry's time changes |
| TimerList.RemoveKeepsOthers | src/gki/common/gki_time.cc:847-911 | removing an entry changes no other entry's time |
| Deltas.ChargeDue | src/gki/common/gki_time.cc:665-680 | on delta sequences: charging from the front lowers every prefix sum, stopping at zero |
| Deltas.ChargeSum | src/gki/common/gki_time.cc:682-690 | `last_ticks`, lowered separately and clipped at zero, is again the sum of the deltas |
| Deltas.InsertDue | src/gki/common/gki_time.cc:790-813 | on delta sequences: an insertion has its own prefix sum and keeps the others |
| Deltas.InsertShape | src/gki/common/gki_time.cc:771-813 | deltas stay non-negative and their sum is the later of the old sum and the new time |
| Deltas.PlaceExactly | src/gki/common/gki_time.cc:771-799 | a new entry goes behind all that are due before it and in front of all that are due after it; among those due at the same time it goes first, or last if nothing is due later |
| Deltas.RemoveDue | src/gki/common/gki_time.cc:857-864 | on delta sequences: a removal keeps all other prefix sums |
| Deltas.RemoveShape | src/gki/common/gki_time.cc:857-864 | deltas stay non-negative and their sum drops only with the last entry |
| Deltas.ReportedCount | src/gki/common/gki_time.cc:652-678 | the number of reported entries is positive exactly when some entry is expired, never above the number of expired entries, and short of it by exactly the zero-delta entries tied to an exact hit; the 16-bit result is that number modulo 65536, and so equal to it for lists of fewer entries |
| Deltas.TieIsNotReported | src/gki/common/gki_time.cc:665 | two entries due at once: a step that hits them exactly reports one |
| Buffers.Kernel.ExactlyOnePlace | src/gki/common/gki_buffer.cc:254-781 | in every state that the operations below can reach, each buffer is in exactly one place, once, and its status byte says which: its pool's free queue, a caller, or one mailbox or queue |
| Buffers.Kernel.CurCntCountsInUse | src/gki/common/gki_buffer.cc:254-440 | a free queue holds just its pool's free buffers, `cur_cnt` is the number of the others, and both add up to `total` |
| Buffers.Kernel.TakenIsCounted | src/gki/common/gki_buffer.cc:425-437 | a buffer that is not free is one of those its pool counts, so freeing it never takes the count below zero |
| Buffers.Kernel.CountsTaken | src/gki/common/gki_buffer.cc:347-377 | a pool that counts fewer buffers than it has holds a free one, so the late allocation and the returns that keep the lock are never reached; taking it keeps all counts right |
| Buffers.Kernel.CountsReleased | src/gki/common/gki_buffer.cc:415-437 | freeing a buffer moves one from taken to free in its own pool and keeps all counts right |
| Buffers.Kernel.CountsStay | src/gki/common/gki_buffer.cc:535-550 | mailboxes and queues do not touch the pools' counts |
| Buffers.Kernel.constructor | src/gki/common/gki_buffer.cc:120-200 | ten empty free queues, four empty mailboxes for each of fifteen tasks |
| Buffers.Kernel.BufferInit | src/gki/common/gki_buffer.cc:43-87 | each pool's free queue holds all its buffers, nothing is taken, nothing queued, and the invariant holds |
| Buffers.Kernel.Getbuf | src/gki/common/gki_buffer.cc:254-322 | hands out the first free buffer of the pool the search chooses, or nothing and changes nothing; with the pools in order the buffer is large enough and of a public pool |
| Buffers.Kernel.Search | src/gki/common/gki_buffer.cc:265-285 | the two loops find the first public pool with a free buffer, from the first that is large enough |
| Buffers.Kernel.Getpoolbuf | src/gki/common/gki_buffer.cc:340-383 | a buffer of the pool itself or else what the fallback by size gives; with the pools in order it is at least as large as the pool's and of a public pool if it comes from another |
| Buffers.Kernel.TakeFree | src/gki/common/gki_buffer.cc:347-377 | the head of the free queue, unlinked, owned by the caller, counted, with the maximum kept |
| Buffers.Kernel.Freebuf | src/gki/common/gki_buffer.cc:397-440 | a buffer in a caller's hands goes to the tail of its own free queue; one that is free or linked stays where it is |
| Buffers.Kernel.SendMsg | src/gki/common/gki_buffer.cc:509-553 | a buffer in hand goes to the tail of the mailbox and the event is to be set; to a task that cannot get it it is freed; a linked one stays where it is |
| Buffers.Kernel.ReadMbox | src/gki/common/gki_buffer.cc:567-589 | the head of the mailbox, in order of sending, or nothing exactly when it is empty |
| Buffers.Kernel.InitQueue | src/gki/common/gki_buffer.cc:231-236 | a new empty queue leaves all else as it is |
| Buffers.Kernel.Enqueue | src/gki/common/gki_buffer.cc:603-640 | appends a buffer in hand; any other stays where it is |
| Buffers.Kernel.EnqueueHead | src/gki/common/gki_buffer.cc:654-689 | prepends a buffer in hand; any other stays where it is |
| Buffers.Kernel.Dequeue | src/gki/common/gki_buffer.cc:702-731 | the head of the queue, or nothing exactly when it is empty |
| Buffers.Kernel.RemoveFromQueue | src/gki/common/gki_buffer.cc:745-781 | takes the buffer out wherever it is, the others in their order; a buffer that is not there changes nothing; a fault exactly if the queue is empty |
| Buffers.Kernel.FindBefore | src/gki/common/gki_buffer.cc:756-761 | the predecessor of the buffer, or null exactly when it is not in the queue |
| PoolList.ServedWellExactlyWhenAscending | src/gki/common/gki_buffer.cc:265-315 | no request is ever served from a pool too small for it, however full the pools are, if and only if the list is ascending over the public pools that have buffers |
| PoolList.ChoiceIsBestFit | src/gki/common/gki_buffer.cc:265-315 | in such a list the choice is the smallest available pool that is large enough, and there is none only when all of those are used up |
| PoolList.OnlyOneLeft | src/gki/common/gki_buffer.cc:265-315 | the state in which a pool out of order serves a request one byte too large for it |
| PoolList.ShippedPoolsAreOrdered | src/include/buildcfg.h:48-71 | the shipped fixed pools are not sorted, but ascending over the public ones with buffers; opening the last one would let 269 bytes end up in a buffer of 268 |
| PoolList.StartupGood | src/gki/common/gki_buffer.cc:120-220 | the pools set up at the start satisfy the invariant |
| PoolList.InsertedAscending | src/gki/common/gki_buffer.cc:934-953 | a new pool finds its place in the order |
| PoolList.InsertedNames | src/gki/common/gki_buffer.cc:934-953 | the list then names exactly the pools with memory, each once, and had room |
| PoolList.RemovedAscending | src/gki/common/gki_buffer.cc:965-979 | a deleted pool leaves the rest in order |
| PoolList.RemovedMembers | src/gki/common/gki_buffer.cc:965-979 | just that pool leaves the list |
| PoolList.RemovedNames | src/gki/common/gki_buffer.cc:965-979 | the list again names exactly the pools with memory |
| PoolList.BlocksChanged | src/gki/common/gki_buffer.cc:53-66 | pools stay apart in memory when one changes |
| PoolList.CreatedGood | src/gki/common/gki_buffer.cc:1119-1154 | creating a pool keeps the list, the pools apart from each other, and the order (the buffers within a pool: BuffersApartExactly) |
| PoolList.DeletedGood | src/gki/common/gki_buffer.cc:1170-1202 | deleting a pool keeps list, layout and order |
| PoolList.CreatedPool | src/gki/common/gki_buffer.cc:53-87 | a pool that is created has all its buffers free, with room for each at its size with header and trailer, and no other pool changes |
| PoolList.DeletedPool | src/gki/common/gki_buffer.cc:1170-1202 | a pool that is deleted leaves nothing recorded, and no other pool changes |
| PoolList.DeletionUndoesCreation | src/gki/common/gki_buffer.cc:1119-1202 | deleting a pool that was created leaves the kernel's tables and list as they were before, but for the permission |
| PoolList.PermissionKeepsOrderExactly | src/gki/common/gki_buffer.cc:907-922 | making a pool public keeps the order if and only if it has no buffers or is at least as large as all before it; restricting one always does |
| PoolList.Pools.CreatePool | src/gki/common/gki_buffer.cc:1119-1154 | when a pool is created, its identifier, the whole new table, and that order is kept |
| PoolList.Pools.DeletePool | src/gki/common/gki_buffer.cc:1170-1202 | a pool is given up exactly if it has memory and all its buffers are back; order is kept |
| PoolList.Pools.SetPermission | src/gki/common/gki_buffer.cc:907-922 | changes the permission of that pool only, and fails for one that does not exist |
| PoolList.Pools.InitFreeQueue | src/gki/common/gki_buffer.cc:53-68 | start, end, distance and recorded size of a pool, in 16 bits (its chain of free buffers: Buffers.Kernel.BufferInit) |
| PoolList.Pools.Add | src/gki/common/gki_buffer.cc:934-953 | shifting and storing in place inserts before the first pool at least as large |
| PoolList.Pools.MakeRoom | src/gki/common/gki_buffer.cc:946-948 | the upward shift keeps the entries |
| PoolList.Pools.Remove | src/gki/common/gki_buffer.cc:965-979 | shifting in place removes just the first occurrence |
| PoolList.Pools.CloseGap | src/gki/common/gki_buffer.cc:973-976 | the downward shift keeps the entries |
| PoolList.Pools.FindBufStart | src/gki/common/gki_buffer.cc:861-883 | the loop answers for the first pool whose memory holds the address |
| PoolList.FindInvertsExactlyWhenStrideFits | src/gki/common/gki_buffer.cc:861-883 | every address in every user area leads back to its buffer if and only if the distance between buffers fits in 16 bits; the largest sizes admitted by the check are three bytes more, and their pools answer for nothing |
| PoolList.BuffersApartExactly | src/gki/common/gki_buffer.cc:53-87 | the buffers of a new pool share no byte if and only if the distance fits in 16 bits; with the three largest sizes they all lie at one address |
| PoolList.ShippedBuffersApart | src/include/buildcfg.h:48-71 | the buffers of the shipped pools share no byte |
| PoolList.StartupPools | src/gki/common/gki_buffer.cc:124-162 | the fixed pools start with all buffers free, as far apart as their size with header and trailer |
| PoolList.Pools.constructor | src/gki/common/gki_buffer.cc:120-220 | the fixed pools satisfy the invariant, in order, if their memory is apart |
| PoolList.AddressLeadsBack | src/gki/common/gki_buffer.cc:868-875 | the division and multiplication recover the start of the buffer |
| PoolList.FindSkips | src/gki/common/gki_buffer.cc:867-877 | pools that lie elsewhere do not answer for an address |
| PoolList.FindsEveryBuffer | src/gki/common/gki_buffer.cc:861-883 | among all pools of any reachable table an address in a user area leads back to its start |
| PoolList.FindAnswersExactly | src/gki/common/gki_buffer.cc:861-883 | the search answers if and only if the address lies inside a pool, after its first byte |
| PoolList.StrideFits | src/gki/common/gki_buffer.cc:53-63 | which sizes make the 16-bit distance wrap around to zero |
| PoolList.RecordedSizeFitsExactly | src/gki/common/gki_buffer.cc:53-87 | the recorded size of a pool's buffers is at least the one asked for, and fits the distance between buffers together with header and trailer but for the three largest sizes |
| Mailbox.NoLostWakeup | src/gki/ulinux/gki_ulinux.cc:615-741 | in every interleaving, while the receiving task sleeps on a filled mailbox it waits for, some sender still owes it the event, may send it now, and wakes it with that |
| Mailbox.StepInv | src/gki/ulinux/gki_ulinux.cc:615-741 | each atomic step keeps: a filled mailbox has its bit set, or its event still owed, or its reader at work; the sleeper's waited bits are clear; messages are received in the order sent |
| Mailbox.RunInv | src/gki/ulinux/gki_ulinux.cc:615-741 | so does every interleaving |
| Mailbox.InitInv | src/gki/ulinux/gki_ulinux.cc:124-162 | the initial state satisfies it |
| Mailbox.SleepsOnlyWhenDone | src/gki/common/gki_buffer.cc:509-589 | with all senders idle, a sleeping receiver has got everything sent to the mailboxes it waits for, in order |
| Mailbox.ReceiverComesToRest | src/gki/ulinux/gki_ulinux.cc:615-741 | from any reachable state the receiver, left alone, drains its mailboxes and reaches sleep in finitely many steps |
| Mailbox.EverythingIsDelivered | src/gki/common/gki_buffer.cc:567-589 | and by then it has received every message sent to a waited mailbox |
| Mailbox.SentIsAppended | src/gki/common/gki_buffer.cc:509-589 | in every interleaving what has been sent to a mailbox is what senders appended to it, in order, and of that the task has received the first part and finds the rest there |
| Mailbox.SentEventIsKept | src/gki/ulinux/gki_ulinux.cc:802-818 | an event that is sent, whether or not it announces a message, sets its bits and wakes the receiver; at every later point of every interleaving each bit is still set or has been returned by a wait that asked for it, so that nobody sleeps on an event sent to him |
| Mailbox.SetExactly | src/gki/ulinux/gki_ulinux.cc:615-818 | in every interleaving a bit is set if and only if an event, a sender or a wait that found its mailbox filled has set it and no wait that asked for it has returned since |
| Mailbox.StepSetsExactly | src/gki/ulinux/gki_ulinux.cc:615-818 | the same for one step |
| Mailbox.ClearedIsReturned | src/gki/ulinux/gki_ulinux.cc:730-741 | a bit that is no longer set has been returned by a wait that asked for it |
| Mailbox.WaitReturns | src/gki/ulinux/gki_ulinux.cc:730-741 | a wait returns the bits it asked for, clears those and leaves all others; the mailboxes among them are what its task has to read |
| Mailbox.SleepsOnce | src/gki/ulinux/gki_ulinux.cc:658-714 | a wait sleeps at most once: whatever wakes it, it returns next |
| Mailbox.FilledIsReturned | src/gki/ulinux/gki_ulinux.cc:705-712 | a wait that has slept returns the bit of every mailbox it asked for that was filled when it woke, whether or not its event has been sent |
| Mailbox.EventIsReturned | src/gki/ulinux/gki_ulinux.cc:615-741 | from any reachable state a bit that is set and waited for is returned, if only the receiver goes on |
| Mailbox.SenderGetsThrough | src/gki/ulinux/gki_ulinux.cc:802-818 | a sender finds the lock of the events free, or does so after finitely many steps of the receiver alone |
| Mailbox.UndrainedReceiverSleeps | src/gki/ulinux/gki_ulinux.cc:658-741 | a receiver that reads one of two messages and waits again sleeps on the other with nobody left to wake it: draining is needed |
| Mailbox.StepNotice | src/gki/common/gki_buffer.cc:509-554 | the part about notice, step by step: appending owes an event, and sending it sets the bit of that mailbox |
| Discovery.PollOrderExactly | src/nfa/dm/nfa_dm_discover.cc:2643-2766 | in POLL_ACTIVE, the order of response and notification makes no difference (state, flags, retries, restart and everything that is sent or told) if and only if the link goes to idle, with the host's request as its reason, or during a wake-up with a failure as its reason |
| Discovery.ListenOrderExactly | src/nfa/dm/nfa_dm_discover.cc:2786-2836 | in LISTEN_ACTIVE it makes none if and only if the link goes to idle at the host's request or during a wake-up |
| Discovery.IdleOrderExactly | src/nfa/dm/nfa_dm_discover.cc:2212-2264 | in IDLE, after an activation that was not expected, the order of response and notification makes no difference if and only if the response is no success, or there is no module to tell, no stop or shutdown to complete and no discovery to restart |
| Discovery.OneNoticeInEitherOrder | src/nfa/dm/nfa_dm_discover.cc:2643-2766 | for a link to idle that did not fail, both orders end in the same control block but for the reason that is logged, and the module is told exactly once |
| Discovery.RaceLeavesNoTrace | src/nfa/dm/nfa_dm_discover.cc:2305-2395 | an activation that crosses a deactivation in DISCOVERY leaves no trace in either order, and no module is told |
| Discovery.LogTells | src/nfa/dm/nfa_dm_discover.cc:1774-1875 | a response that comes last reports the host's own request instead of the reason in the notification |
| Discovery.LogIsOnlyWritten | src/nfa/dm/nfa_dm_discover.cc:2101-2139 | the way to idle does not depend on what has been told before |
| Discovery.PollNtfLast | src/nfa/dm/nfa_dm_discover.cc:2643-2766 | with the notification last, it decides |
| Discovery.ListenNtfLast | src/nfa/dm/nfa_dm_discover.cc:2786-2836 | with the notification last, it decides |
| Discovery.RspLast | src/nfa/dm/nfa_dm_discover.cc:2643-2665 | with the response last, the link goes to idle whatever the notification said |
| Discovery.RunGuarded | src/nfa/dm/nfa_dm_discover.cc:1113-1168 | over every run the guard timer runs only while a notification is overdue in an active state, and at most three retries are counted |
| Discovery.StepGuarded | src/nfa/dm/nfa_dm_discover.cc:2983-3042 | each event, timeout and request keeps this |
| Discovery.TimeoutCompletesDeactivation | src/nfa/dm/nfa_dm_discover.cc:1060-1099 | so an expiring guard timer always forces the controller to idle, whose response then completes the deactivation and tells the module |
| Discovery.EveryStopIsAnsweredOnce | src/nfa/dm/nfa_dm_discover.cc:2101-2139 | over every run each stop that is asked for, and not merged into one still pending, is answered at most once: the answers given and the one still owed, if any, are as many as the stops |
| Discovery.StepAnswers | src/nfa/dm/nfa_dm_act.cc:1403-1435 | each step keeps the balance of stops asked for, answered and owed |
| Discovery.StopDuringSleepIsLeftOwed | src/nfa/dm/nfa_dm_discover.cc:2643-2766 | a witness of a stop left owed: it meets a deactivation to sleep, sends nothing, and when the tag sleeps nothing is outstanding |
| Discovery.StopIsLeftOwedExactly | src/nfa/dm/nfa_dm_discover.cc:2643-2836 | a stop that meets a deactivation whose notification is outstanding, with or without the response, in POLL_ACTIVE and LISTEN_ACTIVE, for every type and reason: with the response last it is answered; with the notification last it is answered if and only if the link goes to idle or the controller had to be forced there, and left owed with nothing done about it if and only if the guard timer runs and the link goes to sleep, in POLL_ACTIVE with no failure and no wake-up |
| Discovery.ReleaseIsLeftOwedExactly | src/nfa/dm/nfa_dm_discover.cc:2643-2836 | the same for the release of exclusive control |
| Discovery.StopInIdleExactly | src/nfa/dm/nfa_dm_discover.cc:2212-2264 | a stop or release in IDLE with a response awaited, with and without a notification outstanding too, in both orders and for every status: when it is answered, and that otherwise nothing has been done and nothing is outstanding |
| Discovery.StepForgetsExactly | src/nfa/dm/nfa_dm_discover.cc:2983-3042 | for every state, event, timeout and request: a stop that is owed and can still be answered becomes one that nothing to come can answer if and only if the step is one of those listed by Forgets, and a new stop or release is one at once if and only if it is one of those listed by ForgetsNew |
| Discovery.ForgottenSince | src/nfa/dm/nfa_dm_discover.cc:2983-3042 | over every run, a stop that nothing can answer any more has been so since one of those steps |
| Discovery.CanStillBeAnswered | src/nfa/dm/nfa_dm_discover.cc:2101-2139 | a stop that is owed and not forgotten is answered by what is to come: the notification and response awaited, the end of a wake-up or of the link, or the response to the deactivation that has been sent |
| Discovery.StopIsTakenUpExactly | src/nfa/dm/nfa_dm_act.cc:1403-1435 | from any state, a stop is answered at once, or a response or notification that can answer it is outstanding or will be after a wake-up, if and only if it does not come in a low power state and does not make a sleeping link give up the notification it waits for (what can go wrong after that: StepForgetsExactly) |
| Discovery.ReleaseIsTakenUpExactly | src/nfa/dm/nfa_dm_act.cc:805-825 | the same for a release of exclusive control, if and only if it does not come in IDLE with no response awaited, in a low power state, or to a sleeping link that gives up (what can go wrong after that: StepForgetsExactly) |
| Discovery.ExclusiveEndsExactly | src/nfa/dm/nfa_dm_act.cc:762-825 | from IDLE with nothing pending, exclusive control taken and given back is over after two responses, leaving the flags as they were and telling its owner, if a technology is offered; if none is, the release stays owed with nothing sent and nothing under way |
| Discovery.DeactivationIsUnderwayExactly | src/nfa/dm/nfa_dm_discover.cc:3222-3270 | in any state and for any type, a request to deactivate leaves something under way or put off if and only if it is not one of those that lead to nothing |
| Discovery.ShutdownWaitsExactly | src/nfa/dm/nfa_dm_act.cc:554-590 | a graceful shutdown is left pending if and only if, judged by the state and flags before, a response or notification will be outstanding |
| Discovery.RestartsExactly | src/nfa/dm/nfa_dm_discover.cc:1179-1204 | once in IDLE, discovery starts again if and only if a technology is offered and discovery is enabled, or exclusive control is held and not given up on the way |
| Discovery.LeadsExactly | src/nfa/dm/nfa_dm_discover.cc:2150-3042 | the state diagram: in every state, whatever the flags, an event leads to another state if and only if it is one of the arrows listed by where they end |
| Discovery.RequestsLeadExactly | src/nfa/dm/nfa_dm_discover.cc:3222-3270 | no request and no timeout leads anywhere but to IDLE, and there if and only if it forces the controller to idle |
| Discovery.SaysExactly | src/nfa/dm/nfa_dm_discover.cc:2150-3042 | in every state, whatever the flags, an event is followed by exactly the listed orders to the controller and notices to modules, each once: by action, what leads to it |
| Discovery.OrdersExactly | src/nfa/dm/nfa_dm_discover.cc:2150-3042 | and by exactly these deactivations, each with its type and as often as listed, those of retries and of commands put off to the end of a wake-up included |
| Discovery.CommandOrdersExactly | src/nfa/dm/nfa_dm_discover.cc:2150-3042 | what the command to deactivate sends: the type asked for if nothing is awaited, idle where there is no link yet or the controller is forced |
| Discovery.ActivationIsToldOrRefused | src/nfa/dm/nfa_dm_discover.cc:1561-1763 | in DISCOVERY, W4_ALL_DISCOVERIES, LISTEN_SLEEP, and in W4_HOST_SELECT outside a wake-up, the exclusive owner or else the matching entry is told, and it is the one on record for the deactivation; the target is sent back to idle if and only if there is neither; the host listens afterwards if it slept in listen mode, or in DISCOVERY if the interface is that of a secure element's direct access or the activation is one in listen mode and not of a reader over the secure element, and polls otherwise |
| Discovery.ActivationIsNeverRefused | src/nfa/dm/nfa_dm_discover.cc:2527-2547 | in LP_LISTEN and at the end of a wake-up the same is told, and nothing is ever sent back to idle |
| Discovery.LowPowerRoundTrip | src/nfa/dm/nfa_dm_discover.cc:2932-2972 | a link in the low power states comes and goes, its module is told of both, and every other event is ignored |
| Discovery.StartIsAnsweredExactly | src/nfa/dm/nfa_dm_act.cc:1374-1392 | a start is answered by the response to the command it sends if and only if no stop or shutdown waits for that, and at once if nothing is offered |
| Discovery.StartAgainIsAnsweredAtOnce | src/nfa/dm/nfa_dm_act.cc:1374-1392 | a start while discovery is enabled or at work is answered at once and does nothing else |
| Discovery.SelectionIsToldOnce | src/nfa/dm/nfa_dm_discover.cc:2491-2525 | the application is told once how its selection came out; further responses tell it nothing |
| Discovery.EnabledExactly | src/nfa/dm/nfa_dm_discover.cc:2983-3042 | over every event, timeout and request discovery is enabled by a start in IDLE and by nothing else, and disabled by a stop or a shutdown and by nothing else |
| Discovery.ExclusiveIsGrantedExactly | src/nfa/dm/nfa_dm_act.cc:762-790 | exclusive control is granted if and only if nobody has it and discovery is at rest; otherwise a request changes nothing |
| Discovery.WakeupLeavesNoNotice | src/nfa/dm/nfa_dm_discover.cc:1888-1966 | a wake-up begins if and only if no deactivation is in progress, and a tag that sleeps, is selected and wakes up is active again without any module having been told that it was away |
| Discovery.EveryFourthRetryEscalates | src/nfa/dm/nfa_dm_discover.cc:2666-2730 | however often the controller fails to put a tag to sleep, the host sends the command three times more and then asks for discovery, over and over |
| Discovery.FailedSleepIs | src/nfa/dm/nfa_dm_discover.cc:2666-2730 | one failure: the state, the retries and the one command that is sent |
| Discovery.NewState | src/nfa/dm/nfa_dm_discover.cc:2101-2139 | entering IDLE keeps the balance of stops and the guard |
| Discovery.NotifyDeactivation | src/nfa/dm/nfa_dm_discover.cc:1774-1875 | with a notification the module is told exactly once unless a tag is being woken up, and stops, guard and state are untouched |
| Discovery.ForceToIdle | src/nfa/dm/nfa_dm_discover.cc:1060-1075 | keeps the balance of stops |
| Discovery.SendDeactivateCmd | src/nfa/dm/nfa_dm_discover.cc:1113-1168 | keeps the balance and the guard, leaves the state alone unless it forces the controller to idle |
| Discovery.OnDeactivateCmd | src/nfa/dm/nfa_dm_discover.cc:2983-3042 | in every state, the command keeps the balance, the guard and a wake-up in progress |
| Discovery.EndSleepWakeup | src/nfa/dm/nfa_dm_discover.cc:1942-1966 | ends the wake-up and keeps balance and guard |
| Discovery.Execute | src/nfa/dm/nfa_dm_discover.cc:2983-3042 | every event in every state keeps the balance of stops and the guard |
| Discovery.Manager.constructor | src/nfa/dm/nfa_dm_discover.cc:2101-2139 | starts in IDLE with nothing owed |
| Discovery.Manager.EnterState | src/nfa/dm/nfa_dm_discover.cc:2101-2139 | the assignments amount to the state change with its answers to a stop or a shutdown |
| Discovery.Manager.TellDeactivated | src/nfa/dm/nfa_dm_discover.cc:1774-1875 | whom the deactivation is passed on to, and what is cleared |
| Discovery.Manager.ForceIdle | src/nfa/dm/nfa_dm_discover.cc:1060-1075 | at most one forced deactivation |
| Discovery.Manager.SendDeactivation | src/nfa/dm/nfa_dm_discover.cc:1113-1168 | one command at a time; insisting forces idle |
| Discovery.Manager.DoDeactivateCmd | src/nfa/dm/nfa_dm_discover.cc:2983-3042 | the command in each state |
| Discovery.Manager.FinishWakeup | src/nfa/dm/nfa_dm_discover.cc:1942-1966 | the deferred deactivation goes out after the wake-up |
| Discovery.Manager.HandleIdle | src/nfa/dm/nfa_dm_discover.cc:2150-2284 | in IDLE, one assignment at a time, every event leads where the table of the state machine says, each stop stays answered or owed, and the guard holds |
| Discovery.Manager.HandleDiscovery | src/nfa/dm/nfa_dm_discover.cc:2295-2405 | the same in DISCOVERY, with the race between activation and deactivation |
| Discovery.Manager.HandleW4AllDiscoveries | src/nfa/dm/nfa_dm_discover.cc:2417-2479 | the same in W4_ALL_DISCOVERIES |
| Discovery.Manager.HandleW4HostSelect | src/nfa/dm/nfa_dm_discover.cc:2491-2596 | the same in W4_HOST_SELECT, where failures end a wake-up |
| Discovery.Manager.HandlePollActive | src/nfa/dm/nfa_dm_discover.cc:2607-2766 | the same in POLL_ACTIVE, where a notification waits for its response |
| Discovery.Manager.LeavePollActive | src/nfa/dm/nfa_dm_discover.cc:2666-2766 | what a completed deactivation does in POLL_ACTIVE |
| Discovery.Manager.PutToSleep | src/nfa/dm/nfa_dm_discover.cc:2683-2730 | sleep, wake-up and retries |
| Discovery.Manager.HandleListenActive | src/nfa/dm/nfa_dm_discover.cc:2778-2845 | the same in LISTEN_ACTIVE |
| Discovery.Manager.HandleListenSleep | src/nfa/dm/nfa_dm_discover.cc:2857-2921 | the same in LISTEN_SLEEP |
| Discovery.Manager.Handle | src/nfa/dm/nfa_dm_discover.cc:2983-3042 | every event in every state keeps the guard and the balance of stops |
| Discovery.Manager.GuardTimeout | src/nfa/dm/nfa_dm_discover.cc:1086-1099 | the timeout always ends in IDLE with a response awaited |
| Discovery.Manager.Play | src/nfa/dm/nfa_dm_discover.cc:2983-3042 | any sequence of events, timeouts and requests, carried out one by one, keeps the guard, and every stop asked for is answered exactly once or is the one still owed |
| Discovery.Manager.DeactivateLink | src/nfa/dm/nfa_dm_discover.cc:3222-3270 | leaves something under way or put off exactly unless the request is one that leads to nothing |
| Discovery.Manager.DisableDiscovery | src/nfa/dm/nfa_dm_act.cc:554-590 | a shutdown is left pending exactly if, judged beforehand, something will be outstanding |
| Discovery.Manager.StopExclusive | src/nfa/dm/nfa_dm_act.cc:805-825 | leaves a response or notification outstanding that can answer, or a deactivation put off, exactly unless the release is one of those lost at once, in IDLE with no response awaited among them |
| Discovery.Manager.StopDiscovery | src/nfa/dm/nfa_dm_act.cc:1403-1435 | the stop is answered at once, or a response or notification that can answer it is outstanding, or the deactivation put off, exactly unless it is one of those lost at once |
| Arbitration.PollMask | src/nfa/dm/nfa_dm_discover.cc:1210-1328 | the poll bits of the final mask are the union of all poll requests |
| Arbitration.PollGrantsAreDisjoint | src/nfa/dm/nfa_dm_discover.cc:1215-1221 | no two entries are granted the same poll bit |
| Arbitration.PollGrantExactly | src/nfa/dm/nfa_dm_discover.cc:1215-1221 | a poll bit is granted to an entry if and only if it asks for it and no entry in use before it does |
| Arbitration.OpenBitsExactly | src/nfa/dm/nfa_dm_discover.cc:1258-1278 | an entry is granted ISO-DEP on NFC-B, T3T and NFC-DEP on NFC-F if and only if it asks, active mode on NFC-F if and only if it asks under the older version, NFC-B Prime if and only if it asks for the host routed to, and nothing for vicinity cards and legacy protocols |
| Arbitration.NfcAGrantExactly | src/nfa/dm/nfa_dm_discover.cc:1229-1299 | tags are granted to the first entry that asks for the host NFC-A is routed to, and to nobody else; ISO-DEP on NFC-A to an entry if and only if it asks and no entry before was granted tags |
| Arbitration.ActiveGrantExactly | src/nfa/dm/nfa_dm_discover.cc:1229-1326 | active-mode NFC-DEP on NFC-A, by the requests alone: before, at and after the first entry that asks for tags |
| Arbitration.OpenBitsOfMask | src/nfa/dm/nfa_dm_discover.cc:1258-1327 | the controller is told to listen on NFC-B and NFC-F if and only if an entry asks and may have it |
| Arbitration.NfcABitsOfMask | src/nfa/dm/nfa_dm_discover.cc:1284-1327 | and for tags on NFC-A as the first to ask for them asks, for ISO-DEP if that entry asks, or with no tags asked for if any does |
| Arbitration.NfcDepOfMask | src/nfa/dm/nfa_dm_discover.cc:1284-1327 | and for NFC-DEP on NFC-A as that entry asks and can have it, or with no tags asked for as the first to ask for any NFC-DEP does |
| Arbitration.MaskIsGranted | src/nfa/dm/nfa_dm_discover.cc:1213-1327 | every other bit of the mask is one that some entry has been granted |
| Arbitration.ClashExactlyWhenAskedFor | src/nfa/dm/nfa_dm_discover.cc:1284-1299 | the final mask holds T1T/T2T together with ISO-DEP/NFC-DEP for NFC-A if and only if the first entry to ask for T1T/T2T also asks for what clashes and can have it; never if no single entry asks for both |
| Arbitration.OneNfcDepListenerExactly | src/nfa/dm/nfa_dm_discover.cc:1284-1326 | at most one entry is granted NFC-DEP listening on NFC-A, except exactly when the first T1T/T2T asker wants it too and the first NFC-DEP asker before it wants it without active mode |
| Arbitration.ListenerIs | src/nfa/dm/nfa_dm_discover.cc:1284-1326 | which entries are granted NFC-DEP listening on NFC-A |
| Arbitration.BeforeTags | src/nfa/dm/nfa_dm_discover.cc:1301-1326 | before the first T1T/T2T asker the mask holds NFC-DEP as the first asker wants it |
| Arbitration.OnceTagsAlwaysTags | src/nfa/dm/nfa_dm_discover.cc:1284-1299 | T1T/T2T stays granted once granted |
| Arbitration.TagGrantStep | src/nfa/dm/nfa_dm_discover.cc:1284-1318 | the entry granted T1T/T2T takes ISO-DEP and NFC-DEP from those before it and has what it asked for of them itself |
| Arbitration.AfterTagsStep | src/nfa/dm/nfa_dm_discover.cc:1284-1290 | after that nobody is granted ISO-DEP or NFC-DEP on NFC-A |
| Arbitration.Arbitrate | src/nfa/dm/nfa_dm_discover.cc:1210-1328 | the loop grants every entry in use its part, given what was granted before, touches no other field, and returns the union |
| Arbitration.GrantOne | src/nfa/dm/nfa_dm_discover.cc:1213-1327 | the statements of one round amount to the entry's grant and the next mask |
| SetConfig.Manager.CheckSetConfig | src/nfa/dm/nfa_dm_main.cc:253-504 | what is sent is the encoding of exactly the entries that are new to the cache, in order, compacted in place (for an application: as many bytes from the start of its list); nothing is sent if nothing is new; the pending queue grows exactly when the controller accepts; at 32 pending nothing happens |
| SetConfig.Manager.Scan | src/nfa/dm/nfa_dm_main.cc:275-457 | the loop over the bytes filters the list it encodes |
| SetConfig.Manager.ScanOne | src/nfa/dm/nfa_dm_main.cc:277-456 | one entry: the bytes before are what is kept so far, the bytes after are still those of the list |
| SetConfig.Manager.Examine | src/nfa/dm/nfa_dm_main.cc:277-447 | whether the entry is new, which stored value it is compared with, and the cache afterwards |
| SetConfig.Manager.Keep | src/nfa/dm/nfa_dm_main.cc:449-455 | compaction appends the entry to those kept before it |
| SetConfig.Manager.CopyDown | src/nfa/dm/nfa_dm_main.cc:451-453 | copying bytes down over the gap, overlapping or not, moves them unchanged |
| SetConfig.Manager.OnResponse | src/nfa/dm/nfa_dm_act.cc:326-346 | the application is told exactly when the oldest pending request was its own, and never for an unaccounted response |
| SetConfig.StoredExactly | src/nfa/dm/nfa_dm_main.cc:283-415 | which types are stored, and which lengths each may have |
| SetConfig.FilterKeepsAgreement | src/nfa/dm/nfa_dm_main.cc:253-504 | for a list without the special Listen B type, if what is kept is sent then cache and controller agree afterwards as before |
| SetConfig.FilterKeepsEffect | src/nfa/dm/nfa_dm_main.cc:253-504 | and the controller ends up as if the whole list had been sent, if all its values can be stored |
| SetConfig.UpdateIs | src/nfa/dm/nfa_dm_main.cc:283-447 | an untracked entry is sent; a tracked one is sent and stored exactly if its length is admissible and its value differs from the stored one |
| SetConfig.SentAgainIsDroppedExactly | src/nfa/dm/nfa_dm_main.cc:253-504 | sent again a list is dropped entirely if and only if all its types are tracked and it gives no type two different values |
| SetConfig.NothingKept | src/nfa/dm/nfa_dm_main.cc:459-470 | nothing is kept of a list if and only if none of its entries is new to the cache |
| SetConfig.FinalValue | src/nfa/dm/nfa_dm_main.cc:417-447 | the stored value of a type after a list is one the list gave it, or the old one if it gave none |
| SetConfig.ApplicationChangesSentExactly | src/nfa/dm/nfa_dm_main.cc:443-471 | an application's list is not compacted: its changes are what is sent if and only if they all come first in it |
| SetConfig.AgreementKeptExactly | src/nfa/dm/nfa_dm_main.cc:253-504 | for every list of the manager's in which no entry comes after the special Listen B type to set it or the type before it again, cache and controller agree afterwards if and only if that entry is harmless when it is reached |
| SetConfig.HarmlessKeepsAgreement | src/nfa/dm/nfa_dm_main.cc:253-504 | for every list of the manager's without exception, if all such entries are harmless when reached, cache and controller agree afterwards |
| SetConfig.RejectedListExactly | src/nfa/dm/nfa_dm_main.cc:443-499 | for every list without the special type that the controller does not accept, cache and controller still agree if and only if the last value the list gives each type, of those that can be stored, is the stored one |
| SetConfig.RejectedDistinctListExactly | src/nfa/dm/nfa_dm_main.cc:443-499 | for a list that names no type twice: if and only if it changes nothing that is stored |
| SetConfig.LastValue | src/nfa/dm/nfa_dm_main.cc:417-447 | the stored value of a type after a list is the last one the list gave it, or the old one |
| SetConfig.OneEntryKeepsAgreementExactly | src/nfa/dm/nfa_dm_main.cc:328-338 | for one such entry and any type before it: agreement is kept if and only if there is no type before it, or one of another length, or its bytes are those in memory, or it brings the value stored for its own type and leaves the other's as it is |
| SetConfig.HarmShowsBeforehand | src/nfa/dm/nfa_dm_main.cc:328-338 | whether it is harmless when reached can be told from the cache before the call and the entry in front of it |
| SetConfig.DistinctIsUnrepaired | src/nfa/dm/nfa_dm_main.cc:328-338 | lists that name no type twice are among those |
| SetConfig.ApplicationTypeClobbersItsNeighbour | src/nfa/dm/nfa_dm_main.cc:328-338 | a witness for every cache: the manager's own Listen B application type is stored over the value of the entry before it, and cache and controller disagree |
| SetConfig.Manager.constructor | src/nfa/dm/nfa_dm_main.cc:131-142 | all values zero, those with a length empty, nothing pending |
| SetConfig.Manager.StoreDefaults | src/nfa/dm/nfa_dm_act.cc:159-207 | stores the values that the controller starts with, and leaves all others as they are |
| SetConfig.RunInOrder | src/nfa/dm/nfa_dm_act.cc:326-346 | over every run of sends and responses, mask and counter are a queue of at most 32 requests, answers go to their requests in order, and stray responses tell nobody |
| SetConfig.MaskBelow | src/nfa/dm/nfa_dm_main.cc:478-497 | the mask never has a bit beyond the pending requests |
| SetConfig.MaskAppend | src/nfa/dm/nfa_dm_main.cc:483-497 | setting or clearing the bit after the last is appending to the queue |
| SetConfig.PushInOrder | src/nfa/dm/nfa_dm_main.cc:478-497 | a send keeps the queue |
| SetConfig.PopInOrder | src/nfa/dm/nfa_dm_act.cc:326-346 | a response keeps the queue |
| SetConfig.QueueStep | src/nfa/dm/nfa_dm_main.cc:478-497 | after any run a list that is sent is queued if and only if fewer than 32 are pending, and a response answers the oldest pending one, or nobody |
| SetConfig.OneBitChanges | src/nfa/dm/nfa_dm_main.cc:483-497 | setting or clearing a bit of any number changes that bit and no other |
| SetConfig.EncodeParsed | src/nfa/dm/nfa_dm_main.cc:275-283 | reading a list as entries and writing them out gives back its bytes, but for one left over |
| SetConfig.ParseEncoded | src/nfa/dm/nfa_dm_main.cc:275-283 | the bytes of any list are read as that list |
| SetConfig.NextKeptDiffers | src/nfa/dm/nfa_dm_main.cc:417-447 | an entry that is left out is not the next one to be kept |
| NdefDispatch.EveryoneOnce | src/nfa/dm/nfa_dm_ndef.cc:443-622 | a message reaches each handler for single records once with each record that is for it, each handler for whole messages once if some record is for it, and nobody else; the default handler stands in exactly for records nobody else is for |
| NdefDispatch.RecordsInOrder | src/nfa/dm/nfa_dm_ndef.cc:506-622 | the calls with records come in the order of the records and within one record in the order of the slots |
| NdefDispatch.TargetsAre | src/nfa/dm/nfa_dm_ndef.cc:318-410 | who is called for a record: the matching slots in rising order, the default one exactly if there is none |
| NdefDispatch.NotifiedAfter | src/nfa/dm/nfa_dm_ndef.cc:537-610 | after any number of records a whole-message handler is marked exactly if one of them was for it |
| NdefDispatch.CallsAre | src/nfa/dm/nfa_dm_ndef.cc:537-610 | within a record every target is called once, unless it has the message already |
| NdefDispatch.CallsInOrder | src/nfa/dm/nfa_dm_ndef.cc:537-610 | the calls for one record, with it or with the whole message, come in the order of the slots |
| NdefDispatch.DueStep | src/nfa/dm/nfa_dm_ndef.cc:526-610 | one more record adds exactly the calls it calls for |
| NdefDispatch.Handlers.constructor | src/nfa/dm/nfa_dm_main.cc:131-142 | no handler is registered |
| NdefDispatch.Handlers.Register | src/nfa/dm/nfa_dm_ndef.cc:133-199 | the default handler gets its own slot, any other the first free one, or none and nothing changes |
| NdefDispatch.Handlers.Deregister | src/nfa/dm/nfa_dm_ndef.cc:291-307 | frees just that slot |
| NdefDispatch.Handlers.FindNext | src/nfa/dm/nfa_dm_ndef.cc:318-410 | the first later slot whose handler is for the record |
| NdefDispatch.Handlers.ClearNotified | src/nfa/dm/nfa_dm_ndef.cc:423-432 | clears every handler's mark and nothing else |
| NdefDispatch.Handlers.DealOut | src/nfa/dm/nfa_dm_ndef.cc:526-610 | the search loop ends and deals one record out to all its targets |
| NdefDispatch.Handlers.CallOne | src/nfa/dm/nfa_dm_ndef.cc:537-610 | one call and the search for the next, from the slot just called |
| NdefDispatch.Handlers.HandleMessage | src/nfa/dm/nfa_dm_ndef.cc:443-622 | a message that could not be read goes nowhere, one during exclusive control to its owner alone, an empty one to the default handler, an invalid one nowhere, any other to all its targets |
| NdefDispatch.Handlers.DealMessage | src/nfa/dm/nfa_dm_ndef.cc:506-622 | the loop over the records makes all calls and leaves the marks behind |
| Crc.Compute | src/adaptation/CrcChecksum.cc:89-98 | the table-driven loop computes the bit-by-bit CRC-16 with reflected polynomial 0xA001 and zero start, for every buffer |
| CrcTable.TableIsShift8 | src/adaptation/CrcChecksum.cc:48-78 | every one of the 256 table entries is eight bitwise steps of its index |
| Crc.ByteAtOnce | src/adaptation/CrcChecksum.cc:95 | one round of the loop equals eight bits entering one at a time |
| Crc.WordAtOnce | src/adaptation/CrcChecksum.cc:95 | up to sixteen bits entering one at a time equal adding them first and shifting then |
| Crc.CrcAppend | src/adaptation/CrcChecksum.cc:94-96 | the checksum of a concatenation continues from that of the first part |
| Crc.CrcLinear | src/adaptation/CrcChecksum.cc:89-98 | the checksum is linear over exclusive or |
| Crc.SameCrc | src/adaptation/CrcChecksum.cc:89-98 | two messages of one length share a checksum if and only if their difference has checksum zero |
| Crc.SelfCheck | src/adaptation/CrcChecksum.cc:89-98 | a message followed by its own checksum, low byte first, has checksum zero |
| Crc.BurstsDetected | src/adaptation/CrcChecksum.cc:89-98 | every error burst of at most sixteen bits changes the checksum |
| Crc.CrcParity | src/adaptation/CrcChecksum.cc:89-98 | the checksum keeps the parity of the message |
| Crc.OddErrorsDetected | src/adaptation/CrcChecksum.cc:89-98 | every error of an odd number of bits changes the checksum |
| Ring.RingBuffer.constructor | utils/ringbuffer.cc:32-42 | an empty ring |
| Ring.RingBuffer.Insert | utils/ringbuffer.cc:59-72 | appends as many bytes as there is room for, through wrap-around |
| Ring.RingBuffer.Delete | utils/ringbuffer.cc:74-84 | drops at most that many bytes from the front |
| Ring.RingBuffer.Peek | utils/ringbuffer.cc:86-104 | copies the bytes from an offset on, through wrap-around, and changes nothing |
| Ring.RingBuffer.Pop | utils/ringbuffer.cc:106-116 | returns and drops the front |
| Snoop.Log.Capture | src/adaptation/debug_nfcsnoop.cc:47-74 | for any bytes in the ring the eviction loop ends, and the contents are what it leaves of the old ones followed by the whole header and data |
| Snoop.Log.EvictOld | src/adaptation/debug_nfcsnoop.cc:55-58 | the loop ends with enough room |
| Snoop.Log.EvictOne | src/adaptation/debug_nfcsnoop.cc:56-57 | what one round drops, also when the ring holds less than a header |
| Snoop.HeaderReadsBack | src/adaptation/debug_nfcsnoop.cc:60-68 | length, time since the record before and direction can be read back from a header, in 16 bits, 32 bits and a byte of 0 or 1 |
| Snoop.TimesAddUp | src/adaptation/debug_nfcsnoop.cc:64-70 | the times in the headers of successive records add up, in 32 bits, to the time of the last from that of the first, whose own is 0 |
| Snoop.MakeRoomDropsOldest | src/adaptation/debug_nfcsnoop.cc:55-58 | only the oldest bytes are dropped, whatever they are |
| Snoop.EvictKeepsRecordsExactly | src/adaptation/debug_nfcsnoop.cc:57 | as coded, evicting a record leaves its last data byte in front of the next header; whole records remain if and only if the evicted one was empty and the only one |
| Snoop.FullLengthKeepsRecords | src/adaptation/debug_nfcsnoop.cc:55-58 | dropping the full length instead, the log always holds the newest records, whole, and as many as there is room for |
| Snoop.EvictFrame | src/adaptation/debug_nfcsnoop.cc:56-57 | evicting from records drops the first header and what its length says |
| DiscoveryHandles.RunInjective | src/nfa/ce/nfa_ce_act.cc:456-596 | over every run of requests each handle that is held belongs to one holder and its discovery entry is in use; and no entry in use is without a holder up to the first registration that loses one |
| DiscoveryHandles.RemovalFrees | src/nfa/ce/nfa_ce_act.cc:1649-1761 | removing a listen entry frees it and the discovery entry it holds and touches nothing else; for an entry not in use nothing happens; disabling the local tag is the same for its entry |
| DiscoveryHandles.PollingTakesAndGives | src/nfa/dm/nfa_dm_act.cc:996-1157 | polling holds a discovery entry afterwards if and only if it did before or one was free, one that was free; stopping gives just that one back, unless it has to wait |
| DiscoveryHandles.OthersTakeAndGive | src/nfa/dm/nfa_dm_discover.cc:3053-3176 | other modules get a discovery entry that was free if and only if there is one, and give back just the one they name |
| DiscoveryHandles.ShutdownGivesBack | src/nfa/ce/nfa_ce_main.cc:104-124 | shutting card emulation down gives back exactly what the listen entries in use hold |
| DiscoveryHandles.StartListeningIs | src/nfa/ce/nfa_ce_act.cc:456-596 | starting to listen only hands discovery entries that were free to listen entries that had none: to the local tag if there is any, then to what the host emulates and the active secure elements in order, as long as there are any left |
| DiscoveryHandles.RestartServes | src/nfa/ce/nfa_ce_act.cc:609-630 | listening is started again if and only if a listen entry is in use |
| DiscoveryHandles.RegistrationServes | src/nfa/ce/nfa_ce_act.cc:1402-1638 | a registration takes the first free listen entry after that of the local tag, one that is refused leaves it free, and otherwise it stays in use if and only if there are discovery entries for all that wait |
| DiscoveryHandles.ConfigurationServes | src/nfa/ce/nfa_ce_act.cc:1315-1390 | configuring the local tag marks its entry, gives back what it held if its contents changed, and starts listening if there is something to listen for |
| DiscoveryHandles.StepInjective | src/nfa/ce/nfa_ce_act.cc:456-722 | each request keeps ownership injective, and loses a discovery entry if and only if it is a registration that runs short of them |
| DiscoveryHandles.RegisterLosesExactly | src/nfa/ce/nfa_ce_act.cc:1485-1616 | by counting beforehand: a registration loses a discovery entry if and only if more are free than the listen entries served before the new one take, but fewer than all that wait need |
| DiscoveryHandles.StartListeningServes | src/nfa/ce/nfa_ce_act.cc:456-596 | starting to listen succeeds if and only if the entries that wait, the local tag first, are no more than the free discovery entries; an entry is served if and only if it waits and those before it leave one |
| DiscoveryHandles.DropIs | src/nfa/ce/nfa_ce_act.cc:1610-1616 | clearing the flags of an entry loses its discovery entry exactly if it has one |
| DiscoveryHandles.StartListeningInjective | src/nfa/ce/nfa_ce_act.cc:456-596 | starting to listen, also when it fails half way, keeps ownership injective and loses nothing |
| DiscoveryHandles.AttachInjective | src/nfa/ce/nfa_ce_act.cc:516-530 | one new handle goes to one holder |
| DiscoveryHandles.DetachInjective | src/nfa/ce/nfa_ce_act.cc:714-718 | one handle is given back and no other is touched |
| DiscoveryHandles.PollingInjective | src/nfa/dm/nfa_dm_act.cc:996-1058 | starting and stopping to poll keeps ownership injective and loses nothing |
| DiscoveryHandles.Tables.constructor | src/nfa/ce/nfa_ce_main.cc:75-92 | nothing is held |
| DiscoveryHandles.Tables.AddRfDiscover | src/nfa/dm/nfa_dm_discover.cc:3053-3076 | the first free discovery entry, or none and nothing changes |
| DiscoveryHandles.Tables.DeleteRfDiscover | src/nfa/dm/nfa_dm_discover.cc:3168-3176 | frees that entry; an invalid handle changes nothing |
| DiscoveryHandles.Tables.StartListen | src/nfa/ce/nfa_ce_act.cc:456-596 | the local tag first, then the other entries in order, until one finds no room |
| DiscoveryHandles.Tables.StartOthers | src/nfa/ce/nfa_ce_act.cc:498-593 | the loop over the listen entries |
| DiscoveryHandles.Tables.RegisterListen | src/nfa/ce/nfa_ce_act.cc:1402-1638 | the first free listen entry, with all that happens when it is refused or cannot be started |
| DiscoveryHandles.Tables.DeregisterListen | src/nfa/ce/nfa_ce_act.cc:1649-1761 | gives the handle back and frees the entry |
| DiscoveryHandles.Tables.ConfigureLocalTag | src/nfa/ce/nfa_ce_act.cc:1315-1390 | stops listening for other protocols, marks the tag's entry in use, starts listening if there is something to listen for |
| DiscoveryHandles.Tables.DisableLocalTag | src/nfa/ce/nfa_ce_act.cc:1271-1302 | gives the tag's handle back and frees its entry |
| DiscoveryHandles.Tables.DetachEverything | src/nfa/ce/nfa_ce_main.cc:104-124 | shutting down gives every listen entry's handle back |
| DiscoveryHandles.Tables.EnablePolling | src/nfa/dm/nfa_dm_act.cc:996-1058 | one poll handle, acquired if there is none yet |
| DiscoveryHandles.Tables.DisablePolling | src/nfa/dm/nfa_dm_act.cc:1105-1157 | gives the poll handle back, at once or when the deactivation it has to wait for is over |
| DiscoveryHandles.Tables.RestartListen | src/nfa/ce/nfa_ce_act.cc:609-630 | after a deactivation listening starts again for all that wait, if any listen entry is in use |

## Left out

Weaker than the code, on purpose:

- TaskTimers.TaskTimers.TimerUpdate: does not model an update from within an update, nor counters beyond 31 bits, which the code does not guard either.
- TaskTimers.TaskTimers.CreateTask: takes a task with no timers of an earlier life stored; with such timers TaskTimers.RevivedExactly says what becomes of the countdown, but the next service may then be later than they are due.
- Snoop.Log.Capture: takes packets that fit in the ring, as all that are captured do; for a larger one the loop of the code does not end.
- Buffers.Kernel.constructor: buffers are objects of their own, as memory has it exactly for the sizes that PoolList.BuffersApartExactly admits, among them all shipped ones (PoolList.ShippedBuffersApart).
- Buffers.Kernel.BufferInit: for a pool of zero buffers the code leaves the free queue's pointers at the pool's memory, the model null; nothing reads them, since the count is at its total from the start.
- SetConfig.AgreementKeptExactly: gives one direction only (SetConfig.HarmlessKeepsAgreement) for lists that set the special type, or the one before it, again afterwards; a later entry may then repair the cache.
- SetConfig.Manager.CheckSetConfig: takes complete lists; for one whose last length runs beyond its end the code reads past it.

What the model does not have:

- Task timers: the per-task wait timer that nothing arms, and the entry of the calling task's number, which is a parameter.
- Timer lists: the registry of lists, null arguments of the addition, the branches for corrupted chains.
- Buffers: pools created and deleted under the kernel's buffers (the pool list models them on their own), late allocation of a pool's memory, which is proved unreachable, corruption marks, change of owner, the variants for interrupts, and queues initialised again while in use.
- Pools: the header is sixteen bytes, as with eight-byte pointers; memory from the operating system is taken to be apart from the other pools; the product of distance and count is not cut to 32 bits.
- Mailboxes: shutdown and the arithmetic of timeouts; a wait that times out is a spurious wake-up here, which only makes more runs possible.
- Discovery: MIFARE and Kovio, power modes and the restart of the controller, the logic for peer-to-peer priority, the reset for secure element readers, the deselect command of tags, start notices per entry, the interface error in active states, and a lack of buffers for commands. Which entry an activation matches, whether a selected target is known, and whether any technology is offered come in as parameters.
- Arbitration: the trimming of the mask by configuration after the loop, and exclusive entries. Poll and listen bits are taken as disjoint; the bit for active mode on NFC-A is the same under both versions of the controller interface.
- Parameters: test modes, in which updates are forced. Copying down is by ascending bytes, where the code relies on a library copy even when the areas overlap.
- NDEF: parsing, URI prefixes and names of types; which handler is for which record is a relation that does not change during a message. Handlers that register or leave from within a call.
- Checksum: reading and writing the files it protects.
- Log: compression and dumping, the clock.
- Handles: the duplicate checks for secure elements, entries that wait for a deactivation before they are removed, and power modes; the technology clash of a new entry with itself cannot happen. Whether disabling has to wait for a deactivation is a parameter.
- Everything above and below: the hardware abstraction, the API wrappers that only send messages, configuration files, logging, reader, peer-to-peer and card emulation protocols.
