# Verified models of the scheduler, buffer and queue code

This project models the concurrent code of the repository in Dafny and proves what it promises.

| file | models |
|---|---|
| ListSpec.dfy, KernelList.dfy | `list.c` of the FreeRTOS kernel: what a list means, and the pointer ring that represents it |
| CoRoutines.dfy, TurnBound.dfy | `croutine.c`: priority ready lists, two delayed lists exchanged when the tick counter wraps, event and pending lists fed by interrupts |
| EventGroups.dfy, Barrier.dfy | `event_groups.c`: waiting for bits, setting them, and the rendezvous as a reusable barrier |
| Frames.dfy, StreamBuffer.dfy, StreamMachine.dfy | `stream_buffer.c`: the byte ring call by call, and one writer and one reader interleaved at every load, byte and notification |
| GreenThreads.dfy | the three forms of `gthr.c`: cyclic search, tick delays, idle thread |
| Circular.dfy, Ring.dfy, Monitor.dfy, SemRing.dfy | the bounded buffers of `helper-threads.cpp` (a monitor with single signals and poison pills), `chetasheet-threads.cpp` and `DU05_test/socket_srv.cpp` (three semaphores) |
| Basics.dfy, Sums.dfy | shared notions |

Code that works in place is modelled by classes whose methods change fields and arrays, each proved
against a function of the earlier state. Concurrency is modelled by state machines whose steps are the
atomic actions of the code. What a step keeps is stated for states that meet an invariant; the main results
are stated for every run or every reachable state, for any number of threads, any capacity and any counter
range. What each operation does is said besides without the function that computes it, in lemmas named for
the operation and in the contract of its method. The scheduler class of CoRoutines records its own history,
calls and their parts included, and each of its methods is proved to add only steps that the run theorems
speak of. Fields that exist only for specifications (unbounded time, histories, everything ever sent or
taken) decide no step that models code; the stream buffer machine only stamps its loads with them.

`dafny verify dfyconfig.toml` checks the whole project.

## Where the code differs from what one might expect

Each of these is proved, with the exact condition under which the code does what one might expect.

- The round-robin cursor of a list visits every item not under it within one list length exactly if the lists never have more than two items (ListSpec.OneRoundExactly). Removing the item under the cursor moves the cursor back, and appends made then overtake the item the cursor stands on. Over lists of at most m items the best bound is 2 m - 2 steps (ListSpec.EveryItemIsReached, ListSpec.BoundIsTight); the turns of co-routines keep to the same bound, which is the best one for them too (CoRoutines.TurnComes, TurnBound.TurnBoundIsTight).
- A rendezvous is a barrier exactly if every task sets a bit of the mask that no other task sets (Barrier.SafeExactlyWithOwnBits). That the bits of all tasks together make up the mask is not enough.
- Writer and reader of a stream buffer never block each other exactly if the trigger level is at most 1, or 9 for a message buffer, whose messages take up at least nine bytes (StreamMachine.NeverBothBlockedExactly).
- A co-routine delay keeps the lists in order exactly if it is at least one tick (CoRoutines.DelayKeepsExactly). The callers in the repository check for it, `crDELAY` among them.
- In the cooperative do-while form of the green threads, a delay's own yield counts as its first tick, so a delay of one tick does not block (GreenThreads.DelayBegins). The idle thread may use such a delay, and no other, without breaking the scheduler (GreenThreads.StepKeepsExactly).
- The monitor is free of deadlock exactly if there is a consumer, or room for all items (Monitor.DeadlockFreeExactly).

## Assumptions

- Memory is sequentially consistent; a stream buffer has one writer and one reader, as its header demands, and its trigger level does not change.
- A task notification is a flag that is cleared before a wait and ends it. Calls under `vTaskSuspendAll` or in a critical section are one step, except for what the stream buffer machine splits.
- The threads of `chetasheet-threads.cpp` are clients of the semaphore model without a limit on admissions; there `rb_push` and `rb_pop` test the ring, in the server nothing does.
- Calls of the green-thread library and its timer ticks are atomic.
- A signal on a condition variable wakes one waiter; others may wake for no reason at any time. A semaphore wait without a time limit is not interrupted.
- The demonstration configuration compiles co-routines out; they are modelled as if enabled, with any number of priorities and any counter range.

## Model

| member | source | states |
|---|---|---|
| ListSpec.RemoveUndoesInsertAt | osy-freertos-posix-main/freertos/Source/list.c:188-214 | removing an item that was just inserted, at any place, restores the earlier list, items and cursor |
| ListSpec.InsertMembers | osy-freertos-posix-main/freertos/Source/list.c:107-113 | an insertion adds exactly the new item and keeps every item on the list once |
| ListSpec.RemoveMembers | osy-freertos-posix-main/freertos/Source/list.c:194-211 | a removal takes off exactly the given item and keeps every other item on the list once, the cursor valid |
| ListSpec.AppendedIsLast | osy-freertos-posix-main/freertos/Source/list.c:87-114 | an appended item has its turn after every item that was there, except one under the cursor |
| ListSpec.DistanceStep | osy-freertos-posix-main/freertos/Source/list.c:87-114 | the cursor steps until an item is visited drop by one per step, never grow by a removal, and grow by an append exactly when the cursor stands on the item |
| ListSpec.ReachedWithinDistance | osy-freertos-posix-main/freertos/Source/list.c:87-114 | an item that stays and is not visited within its distance has been under the cursor while something was appended, as often as the delay is long |
| ListSpec.OneRoundExactly | osy-freertos-posix-main/freertos/Source/list.c:200-204 | every item not under the cursor is visited within one list length exactly if the lists never have more than two items; for three and more there is a run that overtakes it |
| ListSpec.PotentialStep | osy-freertos-posix-main/freertos/Source/list.c:87-114 | over lists of at most m items no append and no removal brings an item further away than its remaining two-part way, and each step brings it nearer |
| ListSpec.EveryItemIsReached | osy-freertos-posix-main/freertos/Source/list.c:87-114 | no starvation: over lists of at most m items an item that stays is visited within fewer than 2 m cursor steps, whatever is appended or removed meanwhile |
| ListSpec.BoundIsTight | osy-freertos-posix-main/freertos/Source/list.c:188-214 | that bound cannot be lowered: runs with 2 m - 2 steps that do not visit the item exist for every m |
| ListSpec.Overtake | osy-freertos-posix-main/freertos/Source/list.c:188-214 | the run itself: walk to the end, remove the others from the back, append them again, walk through them |
| ListSpec.UpperBoundUnique | osy-freertos-posix-main/freertos/Source/list.c:129-173 | the place found is the only one with no larger value before it and a larger value (or the end) at it |
| ListSpec.SortedInsert | osy-freertos-posix-main/freertos/Source/list.c:117-185 | inserting at that place keeps a sorted list sorted and puts equal values behind the ones already there |
| KernelList.List.constructor | osy-freertos-posix-main/freertos/Source/list.c:50-72 | an empty ring: the marker linked to itself, the cursor on it |
| KernelList.ListItem.constructor | osy-freertos-posix-main/freertos/Source/list.c:75-84 | a fresh item is on no list |
| KernelList.LinkIn | osy-freertos-posix-main/freertos/Source/list.c:175-182 | four link assignments around a place turn the ring for a list into the ring for the list with the item at that place |
| KernelList.LinkOut | osy-freertos-posix-main/freertos/Source/list.c:194-211 | two link assignments turn the ring into the ring without the item, the cursor stepping back if it stood there |
| KernelList.ValuesSplice | osy-freertos-posix-main/freertos/Source/list.c:175-178 | the values along the ring after a splice are the earlier values with the new one inserted |
| KernelList.List.ViewWellFormed | osy-freertos-posix-main/freertos/Source/list.c:50-72 | every valid ring represents one list without repetitions, as long as the item counter says |
| KernelList.List.InsertEnd | osy-freertos-posix-main/freertos/Source/list.c:87-114 | the ring afterwards represents the list with the item appended behind the cursor, whose turn comes last |
| KernelList.List.FindPlace | osy-freertos-posix-main/freertos/Source/list.c:129-173 | the search ends, at the last item whose value is not larger, also for the largest possible value |
| KernelList.List.LinkAfter | osy-freertos-posix-main/freertos/Source/list.c:175-184 | the ring afterwards represents the list with the item right behind the place found |
| KernelList.List.Insert | osy-freertos-posix-main/freertos/Source/list.c:117-185 | the ring afterwards represents the list with the item at its upper bound; sorted stays sorted |
| KernelList.List.Bypass | osy-freertos-posix-main/freertos/Source/list.c:194-195 | the neighbours of the item are linked to one another, all other links stay |
| KernelList.List.Unlink | osy-freertos-posix-main/freertos/Source/list.c:194-211 | the ring afterwards represents the list without the item, which is on no list |
| KernelList.List.Remove | osy-freertos-posix-main/freertos/Source/list.c:188-214 | the item finds its list, is taken off it, and the number of items left is returned |
| KernelList.List.RemoveAmong | osy-freertos-posix-main/freertos/Source/list.c:188-214 | a removal leaves every other ring as it was |
| KernelList.List.InsertAmong | osy-freertos-posix-main/freertos/Source/list.c:117-185 | an insertion leaves every other ring as it was |
| KernelList.List.Move | osy-freertos-posix-main/freertos/Source/list.c:117-214 | an item moves from one ring to another: both represent what they should, every other ring stays as it was, and no two share anything |
| KernelList.List.NextEntry | osy-freertos-posix-main/freertos/Source/include/list.h:281-292 | the cursor moves to the next item, skipping the end marker, and that item is returned |
| KernelList.List.HeadEntry | osy-freertos-posix-main/freertos/Source/list.c:154-170 | the first item of the list |
| CoRoutines.HeldTake | osy-freertos-posix-main/freertos/Source/list.c:188-214 | taking an item off the list its container link names keeps every list exactly the items that name it |
| CoRoutines.HeldPut | osy-freertos-posix-main/freertos/Source/list.c:117-185 | putting a free item on a list keeps every list exactly the items that name it |
| CoRoutines.DropEventKeeps | osy-freertos-posix-main/freertos/Source/croutine.c:271-271 | taking an event item off its list keeps all placement, order and time facts |
| CoRoutines.MoveToReadyKeeps | osy-freertos-posix-main/freertos/Source/croutine.c:219-220 | moving a delayed co-routine to the ready list of its priority keeps all placement, order and time facts |
| CoRoutines.JoinOverflowTimes | osy-freertos-posix-main/freertos/Source/croutine.c:180-185 | a wake value that wrapped, put on the overflow list, stands for now plus the delay in unbounded time |
| CoRoutines.JoinCurrentTimes | osy-freertos-posix-main/freertos/Source/croutine.c:186-191 | a wake value that did not wrap, put on the current list, stands for now plus the delay in unbounded time |
| CoRoutines.JoinQueueKeeps | osy-freertos-posix-main/freertos/Source/croutine.c:193-198 | joining an event list in priority order keeps all placement, order and time facts |
| CoRoutines.AddToDelayedKeeps | osy-freertos-posix-main/freertos/Source/croutine.c:163-199 | a delay of 1 up to the highest counter value keeps the invariant |
| CoRoutines.DelayKeepsExactly | osy-freertos-posix-main/freertos/Source/croutine.c:163-199 | the invariant is kept exactly for delays of at least one tick; a delay of none leaves an item on the current list |
| CoRoutines.AddToDelayedExactly | osy-freertos-posix-main/freertos/Source/croutine.c:163-199 | the caller has gone from its ready list to the delayed list its wake value belongs to, behind equal wake values, and onto the event list it gave behind everybody of its priority; nothing else has moved |
| CoRoutines.AdmitKeeps | osy-freertos-posix-main/freertos/Source/croutine.c:129-150 | a new co-routine joins the ready list of its priority and the invariant is kept |
| CoRoutines.AdmitExactly | osy-freertos-posix-main/freertos/Source/croutine.c:114-150 | a new co-routine is ready on the list of its priority and waits for nothing; only the first one created is current, and the others are where they were |
| CoRoutines.UnblockKeeps | osy-freertos-posix-main/freertos/Source/croutine.c:347-349 | an interrupt moving the head of an event list to the pending list keeps all placement, order and time facts |
| CoRoutines.UnblockReaches | osy-freertos-posix-main/freertos/Source/croutine.c:347-349 | the event reaches its waiter: the head of the event list is on the pending list instead, the others wait on in their order, and nothing else has changed |
| CoRoutines.HeadIsHighest | osy-freertos-posix-main/freertos/Source/croutine.c:145-146 | the head of an event list has the highest priority of all who wait there |
| CoRoutines.EmptyAtSwap | osy-freertos-posix-main/freertos/Source/croutine.c:236-246 | when the tick counter wraps and the delayed lists are exchanged, the current one is empty |
| CoRoutines.TickKeeps | osy-freertos-posix-main/freertos/Source/croutine.c:233-246 | one tick, with the exchange when the counter wraps, advances unbounded time by one and keeps the invariant |
| CoRoutines.HeadIsDue | osy-freertos-posix-main/freertos/Source/croutine.c:251-257 | the head of the current list is found timed out exactly when it is due at this very tick of unbounded time |
| CoRoutines.NoneDue | osy-freertos-posix-main/freertos/Source/croutine.c:253-257 | once the head is not due, nothing on either list is |
| CoRoutines.DelayedIsFuture | osy-freertos-posix-main/freertos/Source/croutine.c:163-199 | between calls every delayed co-routine is due later than now and within one counter range |
| CoRoutines.InitialisedIsInv | osy-freertos-posix-main/freertos/Source/croutine.c:319-336 | the lists as first initialised satisfy the invariant, whatever the counter shows |
| CoRoutines.InterruptsKeepTimes | osy-freertos-posix-main/freertos/Source/croutine.c:339-361 | interrupts change no wake time |
| CoRoutines.PendingHead | osy-freertos-posix-main/freertos/Source/croutine.c:207-217 | interrupts leave the pending list non-empty, and its head is a co-routine whose event item can be taken off |
| CoRoutines.PendingStep | osy-freertos-posix-main/freertos/Source/croutine.c:207-221 | one round over the pending list, with interrupts in between, readies a co-routine that waited for an event, keeps the invariant, and leaves fewer waiting |
| CoRoutines.ExpireKeeps | osy-freertos-posix-main/freertos/Source/croutine.c:266-276 | waking a co-routine whose delay ended, also off its event list if it is on one, keeps the invariant of the tick |
| CoRoutines.ExpireElapses | osy-freertos-posix-main/freertos/Source/croutine.c:249-277 | a woken co-routine is made ready at its due time and nobody else is touched |
| CoRoutines.AdvanceKeeps | osy-freertos-posix-main/freertos/Source/croutine.c:309-311 | moving the cursor of a ready list keeps the invariant and yields a ready co-routine of that priority |
| CoRoutines.NothingReady | osy-freertos-posix-main/freertos/Source/croutine.c:298-307 | with the lowest list empty and nothing above it, no co-routine is ready |
| CoRoutines.TopIsNext | osy-freertos-posix-main/freertos/Source/croutine.c:298-311 | with a co-routine on the list of the top ready priority, no ready co-routine has a higher priority |
| CoRoutines.KeptInAll | osy-freertos-posix-main/freertos/Source/croutine.c:284-316 | the parts of a scheduler call together keep every delay |
| CoRoutines.PendingReadied | osy-freertos-posix-main/freertos/Source/croutine.c:202-222 | whoever is on the pending list when a scheduler call begins is ready when it ends |
| CoRoutines.StepKeeps | osy-freertos-posix-main/freertos/Source/croutine.c:103-361 | every atomic step that the code's own tests allow keeps the invariant |
| CoRoutines.RunKeeps | osy-freertos-posix-main/freertos/Source/croutine.c:103-361 | it holds at every moment of every history |
| CoRoutines.DelayStarts | osy-freertos-posix-main/freertos/Source/croutine.c:163-199 | the call puts the running co-routine to sleep until now plus the delay, in unbounded time |
| CoRoutines.SleeperIsDue | osy-freertos-posix-main/freertos/Source/croutine.c:248-277 | a sleeper is due not earlier than now, and later than now once the inner loop has nothing left to wake |
| CoRoutines.SleepsUntilDue | osy-freertos-posix-main/freertos/Source/croutine.c:225-281 | as long as no step touches it, a sleeper sleeps on and time does not get past its due time |
| CoRoutines.StaysEventFree | osy-freertos-posix-main/freertos/Source/croutine.c:207-221 | without an interrupt that takes it off an event list, nothing but the end of its delay touches a sleeper: a round over the pending list readies only what it took off that list |
| CoRoutines.NoEventNoWaking | osy-freertos-posix-main/freertos/Source/croutine.c:202-281 | whoever sleeps with no event on its way and gets none has been woken at exactly its due time, or still sleeps and that time has not come |
| CoRoutines.RunKeepsSleepers | osy-freertos-posix-main/freertos/Source/croutine.c:202-281 | the same of all sleepers at once, between any two moments of a history |
| CoRoutines.WakesAtDue | osy-freertos-posix-main/freertos/Source/croutine.c:249-277 | the step that finds its delay ended comes at exactly its due time |
| CoRoutines.WokenExactlyWhenDue | osy-freertos-posix-main/freertos/Source/croutine.c:163-281 | over any history with any number of counter wraps and list exchanges, a delayed co-routine that no interrupt takes off an event list, whether it is on one or not, sleeps until exactly the loop iteration at which unbounded time is call time plus delay, and is made ready in it |
| CoRoutines.OnItsWayStep | osy-freertos-posix-main/freertos/Source/croutine.c:202-222 | no step loses an event on its way: pending before the call, pending, in hand or ready while the list is cleared, ready after that |
| CoRoutines.EventWakes | osy-freertos-posix-main/freertos/Source/croutine.c:284-361 | no lost event: over any history a co-routine on the pending list is awake at the end of the next scheduler call; an event that comes when the current call has done with the list has its co-routine awake or still on the list at the end of this call |
| CoRoutines.InterruptWakes | osy-freertos-posix-main/freertos/Source/croutine.c:339-361 | the same from the interrupt on that finds the co-routine at the head of an event list |
| CoRoutines.StepOnList | osy-freertos-posix-main/freertos/Source/croutine.c:68-75 | each step does at most one append, removal or cursor step to a ready list |
| CoRoutines.TurnComes | osy-freertos-posix-main/freertos/Source/croutine.c:297-311 | over any history in which a co-routine stays ready with at most m at its priority, at most 2 m - 2 times is another of that priority run before it |
| TurnBound.TurnBoundIsTight | osy-freertos-posix-main/freertos/Source/croutine.c:284-316 | for every m there is a history of scheduler calls in which it waits that long: the others run and delay themselves, are all woken by one tick, and run again |
| TurnBound.PickAndSleep | osy-freertos-posix-main/freertos/Source/croutine.c:163-199 | a co-routine that runs and delays itself leaves the cursor where it was before |
| TurnBound.WakeOne | osy-freertos-posix-main/freertos/Source/croutine.c:249-277 | a co-routine woken by its tick is put before the one under the cursor |
| CoRoutines.Drive | osy-freertos-posix-main/freertos/Source/croutine.c:103-361 | any program that creates, delays, interrupts and schedules, in any order, makes a history of possible steps, on which all delays, events and turns are as stated |
| CoRoutines.Scheduler.constructor | osy-freertos-posix-main/freertos/Source/croutine.c:45-56 | before anything is created the invariant of the start holds |
| CoRoutines.Scheduler.InitialiseLists | osy-freertos-posix-main/freertos/Source/croutine.c:319-336 | all ready lists, both delayed lists and the pending list are empty, list 1 current |
| CoRoutines.Scheduler.Create | osy-freertos-posix-main/freertos/Source/croutine.c:103-160 | initialises on the first call, limits the priority, makes the co-routine ready, current only if it is the first; without memory nothing changes |
| CoRoutines.Scheduler.AddToReadyQueue | osy-freertos-posix-main/freertos/Source/croutine.c:68-75 | the item goes to the end of its ready list and the top priority is raised if needed |
| CoRoutines.Scheduler.AddToDelayedList | osy-freertos-posix-main/freertos/Source/croutine.c:163-199 | the running co-routine is delayed, due at now plus the delay in unbounded time, in wake order on its delayed list and in priority order on the event list if one is given; nothing else has moved |
| CoRoutines.Scheduler.RemoveFromEventList | osy-freertos-posix-main/freertos/Source/croutine.c:339-361 | the highest-priority waiter is off its event list and on the pending list, the others as they were; says whether it has at least the priority of the current co-routine |
| CoRoutines.Scheduler.Interrupts | osy-freertos-posix-main/freertos/Source/croutine.c:339-361 | any number of interrupts keep the structure and only move waiters to the pending list |
| CoRoutines.Scheduler.FillIn | osy-freertos-posix-main/freertos/Source/croutine.c:129-150 | the control block filled in and its item on the ready list of its priority |
| CoRoutines.Scheduler.Join | osy-freertos-posix-main/freertos/Source/croutine.c:129-150 | a new co-routine takes part, and the history records it |
| CoRoutines.Scheduler.MoveToDelayed | osy-freertos-posix-main/freertos/Source/croutine.c:166-191 | off the ready list and onto the delayed list that its wake value, modulo the counter range, belongs to |
| CoRoutines.Scheduler.Wake | osy-freertos-posix-main/freertos/Source/croutine.c:266-276 | off the delayed list, off its event list if on one, and onto its ready list |
| CoRoutines.Scheduler.MoveToReadyList | osy-freertos-posix-main/freertos/Source/croutine.c:219-220 | off its delayed list and onto its ready list |
| CoRoutines.Scheduler.Record | osy-freertos-posix-main/freertos/Source/croutine.c:284-316 | a state change enters the history only as a possible step |
| CoRoutines.Scheduler.UnlinkFirstPending | osy-freertos-posix-main/freertos/Source/croutine.c:211-217 | the first half of a round: interrupts, then the head of the pending list comes off |
| CoRoutines.Scheduler.Drop | osy-freertos-posix-main/freertos/Source/croutine.c:212-217 | the event item of the head of the pending list comes off, and the history records it |
| CoRoutines.Scheduler.Release | osy-freertos-posix-main/freertos/Source/croutine.c:219-220 | the second half: the co-routine becomes ready |
| CoRoutines.Scheduler.ReadyFirstPending | osy-freertos-posix-main/freertos/Source/croutine.c:207-221 | one round: a pending co-routine becomes ready, with interrupts before and in between |
| CoRoutines.Scheduler.CheckPendingReadyList | osy-freertos-posix-main/freertos/Source/croutine.c:202-222 | ends with the pending list empty; only co-routines that had waited for an event were made ready, and the history records the end of the loop |
| CoRoutines.Scheduler.ExpireHead | osy-freertos-posix-main/freertos/Source/croutine.c:249-277 | wakes a timed-out head at exactly its due time, with interrupts before |
| CoRoutines.Scheduler.WakeDue | osy-freertos-posix-main/freertos/Source/croutine.c:249-277 | after the walk nothing due is left; who was woken was due at this tick |
| CoRoutines.Scheduler.PassTick | osy-freertos-posix-main/freertos/Source/croutine.c:231-278 | one tick of the loop: unbounded time advances by one, wrap and exchange included |
| CoRoutines.Scheduler.AnyCall | osy-freertos-posix-main/freertos/Source/croutine.c:103-361 | any one call with any arguments the code allows keeps the invariant and extends the history |
| CoRoutines.Scheduler.CheckDelayedList | osy-freertos-posix-main/freertos/Source/croutine.c:225-281 | catches up with the tick count modulo the counter range; everyone due in between is made ready at its own due time |
| CoRoutines.Scheduler.FindTop | osy-freertos-posix-main/freertos/Source/croutine.c:298-307 | finds the highest priority with a ready co-routine |
| CoRoutines.Scheduler.AdvanceTop | osy-freertos-posix-main/freertos/Source/croutine.c:309-311 | the cursor of the highest non-empty ready list moves on, and who it stands on is current |
| CoRoutines.Scheduler.PickNext | osy-freertos-posix-main/freertos/Source/croutine.c:297-311 | picks the next in turn of the highest ready priority, or none exactly if none is ready |
| CoRoutines.Scheduler.Schedule | osy-freertos-posix-main/freertos/Source/croutine.c:284-316 | the whole call: whoever was on the pending list is ready, whoever sleeps and gets no event is woken at exactly its due time or sleeps on before it, over any number of ticks, wraps and exchanges, a highest-priority ready co-routine runs if there is one, and the history ends with that choice |
| EventGroups.RequestDecodes | osy-freertos-posix-main/freertos/Source/event_groups.c:376-397 | a blocked request stored with its control bits decodes to the bits, the clear flag and the condition it was made with |
| EventGroups.AnswerDecodes | osy-freertos-posix-main/freertos/Source/event_groups.c:604-609 | an answer stored in an item is recognised as one and gives back the bits |
| EventGroups.ClearMaskMembers | osy-freertos-posix-main/freertos/Source/event_groups.c:592-602 | a bit is in the deferred clear mask exactly if some woken task asked for it to be cleared |
| EventGroups.SetBitsIgnoresOrder | osy-freertos-posix-main/freertos/Source/event_groups.c:549-621 | the outcome of setting bits depends only on the set of waiting tasks, not on the list order |
| EventGroups.SetBitsWakes | osy-freertos-posix-main/freertos/Source/event_groups.c:559-616 | exactly the tasks whose condition holds on old bits together with new ones are woken, each with that whole value; the others keep their requests |
| EventGroups.SetBitsServesAll | osy-freertos-posix-main/freertos/Source/event_groups.c:549-621 | after setting bits nobody left on the list is satisfied by what is left set |
| EventGroups.SetBitsLeaves | osy-freertos-posix-main/freertos/Source/event_groups.c:592-620 | a bit is left set exactly if it was set or added and no woken task asked to have it cleared |
| EventGroups.SetBitsExactly | osy-freertos-posix-main/freertos/Source/event_groups.c:533-625 | a task stays waiting exactly if the new value does not meet its condition, a woken one finds that value, and no other item or call is touched |
| EventGroups.BlockJoins | osy-freertos-posix-main/freertos/Source/event_groups.c:370-397 | a task that blocks joins the list, its item decodes to the bits, the flag and the condition of its call, and no other item is touched |
| EventGroups.WaitExactly | osy-freertos-posix-main/freertos/Source/event_groups.c:341-405 | returns the bits as they were at once exactly if its condition holds or it may not block, clears the bits exactly if satisfied and asked to, and else joins the list |
| EventGroups.ResumeExactly | osy-freertos-posix-main/freertos/Source/event_groups.c:424-461 | an answered task returns its answer and leaves the bits alone; a timed-out one returns the current bits and clears exactly if they meet its condition and it asked to |
| EventGroups.SyncExactly | osy-freertos-posix-main/freertos/Source/event_groups.c:214-253 | the bits are set in every case; complete exactly if they make up the mask, which is then cleared; else the value left is returned without a block time, or the task joins the list for the whole mask |
| EventGroups.TimeoutExactly | osy-freertos-posix-main/freertos/Source/tasks.c:2808-2816 | a time-out takes the task off the list and changes nothing else |
| EventGroups.SyncKeeps | osy-freertos-posix-main/freertos/Source/event_groups.c:194-255 | entering a rendezvous keeps the invariant |
| EventGroups.ResumeKeeps | osy-freertos-posix-main/freertos/Source/event_groups.c:257-306 | returning from a blocked call, answered or timed out, keeps the invariant |
| EventGroups.StepKeeps | osy-freertos-posix-main/freertos/Source/event_groups.c:194-625 | set, clear, wait, sync, time-out and resume each keep the invariant |
| EventGroups.NeverALostWakeup | osy-freertos-posix-main/freertos/Source/event_groups.c:194-625 | in every reachable state no waiting task has its condition met by the bits set |
| EventGroups.ReturnMeetsCondition | osy-freertos-posix-main/freertos/Source/event_groups.c:409-462 | what a task unblocked by bits returns meets its condition; after a time-out it is the bits as they are |
| EventGroups.AnswerStays | osy-freertos-posix-main/freertos/Source/event_groups.c:604-609 | over any run, what an unblocked task was given stays in its item until it goes on |
| EventGroups.EventGroup.Visit | osy-freertos-posix-main/freertos/Source/event_groups.c:560-616 | one round of the walk, the list shortened under it when the item is taken off |
| EventGroups.EventGroup.Walk | osy-freertos-posix-main/freertos/Source/event_groups.c:554-616 | the walk leaves exactly the unmatched on the list, in order, and collects the clear mask |
| EventGroups.EventGroup.SetEventBits | osy-freertos-posix-main/freertos/Source/event_groups.c:533-625 | exactly the satisfied tasks are woken with the full value, exactly the bits they asked for are cleared, and the invariant holds whatever held before |
| EventGroups.EventGroup.VisitTest | osy-freertos-posix-main/freertos/Source/event_groups.c:566-590 | the test of the walk is the wait condition of the stored request |
| EventGroups.EventGroup.WaitBits | osy-freertos-posix-main/freertos/Source/event_groups.c:317-407 | returns the bits as they were exactly if the condition holds or it may not block, clearing exactly if satisfied and asked to; else it is on the list with its request stored and nothing else changed |
| EventGroups.EventGroup.SyncBits | osy-freertos-posix-main/freertos/Source/event_groups.c:194-255 | blocks exactly if the mask is incomplete and it may; complete, it returns the full value with the mask cleared; else the value that setting its bits left |
| EventGroups.EventGroup.Finish | osy-freertos-posix-main/freertos/Source/event_groups.c:409-462 | the answered value, or after a time-out the current bits with a last test and clear |
| EventGroups.EventGroup.ClearEventBits | osy-freertos-posix-main/freertos/Source/event_groups.c:473-498 | the bits before are returned and the given ones cleared |
| Barrier.EnterWaits | osy-freertos-posix-main/freertos/Source/event_groups.c:229-245 | a task that enters while bits are missing waits in the next round |
| Barrier.AllHaveEntered | osy-freertos-posix-main/freertos/Source/event_groups.c:214-228 | when the mask is complete, every task with a bit of its own has entered |
| Barrier.EnterReleases | osy-freertos-posix-main/freertos/Source/event_groups.c:214-228 | the task that completes the mask releases all others, everybody has entered this round, and the mask bits are clear again |
| Barrier.ReturnKeeps | osy-freertos-posix-main/freertos/Source/event_groups.c:257-306 | a released task returns the whole mask, whatever faster tasks did meanwhile |
| Barrier.StepKeeps | osy-freertos-posix-main/freertos/Source/event_groups.c:194-314 | every call keeps the barrier invariant, other bits being set and cleared by anyone |
| Barrier.BarrierHolds | osy-freertos-posix-main/freertos/Source/event_groups.c:194-314 | over unboundedly many rounds nobody leaves a round before all have entered it, the task that completes the mask and every released one get the whole mask, the mask is clear after every round, and the tasks are never all blocked |
| Barrier.OthersComplete | osy-freertos-posix-main/freertos/Source/event_groups.c:194-314 | without a bit of its own a task is not waited for: a run in which the others leave without it |
| Barrier.SafeExactlyWithOwnBits | osy-freertos-posix-main/freertos/Source/event_groups.c:194-314 | the barrier works on every run exactly if each task sets some mask bit that no other sets |
| Circular.CellAdvance | osy-freertos-posix-main/freertos/Source/stream_buffer.c:1172-1176 | the index arithmetic of the buffer is counting modulo its length |
| Circular.CellsDiffer | osy-freertos-posix-main/freertos/Source/stream_buffer.c:1141-1184 | bytes less than one length apart stand in different cells |
| Frames.CountsExact | osy-freertos-posix-main/freertos/Source/stream_buffer.c:1231-1249 | byte and space counts are exact whatever the wrapping, and no intermediate value leaves the range of the type |
| Frames.HeaderRoundTrip | osy-freertos-posix-main/freertos/Source/stream_buffer.c:738-742 | every length a size_t can hold survives being written and read as a header |
| Frames.ParseFront | osy-freertos-posix-main/freertos/Source/stream_buffer.c:979-986 | the front of a framed byte sequence gives back the oldest message and leaves the frames of the others |
| Frames.NoHalfFrames | osy-freertos-posix-main/freertos/Source/stream_buffer.c:892-898 | whole frames that are no longer than a header are none |
| Frames.FramingUnique | osy-freertos-posix-main/freertos/Source/stream_buffer.c:724-764 | a byte sequence can be read as frames in one way only |
| StreamBuffer.FetchStored | osy-freertos-posix-main/freertos/Source/stream_buffer.c:1141-1228 | what is written at an index, wrapping or not, is read back from it |
| StreamBuffer.StoredKeeps | osy-freertos-posix-main/freertos/Source/stream_buffer.c:1141-1184 | writing behind the bytes in the buffer leaves them alone |
| StreamBuffer.StoredTwice | osy-freertos-posix-main/freertos/Source/stream_buffer.c:738-763 | header and data written one after the other are the frame written as a whole |
| StreamBuffer.ContentsAppend | osy-freertos-posix-main/freertos/Source/stream_buffer.c:759-763 | a write followed by moving the head appends to what the buffer holds |
| StreamBuffer.FrontFrame | osy-freertos-posix-main/freertos/Source/stream_buffer.c:979-1014 | the oldest message stands at the tail, header and data, even when they wrap |
| StreamBuffer.Buffer.constructor | osy-freertos-posix-main/freertos/Source/stream_buffer.c:1252-1287 | an empty buffer, one byte longer than asked for |
| StreamBuffer.Buffer.BytesInBuffer | osy-freertos-posix-main/freertos/Source/stream_buffer.c:1231-1249 | the number of bytes held |
| StreamBuffer.Buffer.SpacesAvailable | osy-freertos-posix-main/freertos/Source/stream_buffer.c:497-527 | the number of bytes that can still be written |
| StreamBuffer.Buffer.WriteBytes | osy-freertos-posix-main/freertos/Source/stream_buffer.c:1141-1184 | the store afterwards holds the data from the index on, around the end, and nothing else changed |
| StreamBuffer.Buffer.ReadBytes | osy-freertos-posix-main/freertos/Source/stream_buffer.c:1187-1228 | the bytes from the index on, around the end |
| StreamBuffer.Buffer.WriteFrame | osy-freertos-posix-main/freertos/Source/stream_buffer.c:736-748 | a message is written whole or not at all, and published only when whole |
| StreamBuffer.Buffer.WriteMessage | osy-freertos-posix-main/freertos/Source/stream_buffer.c:724-764 | message mode appends one frame or nothing; stream mode appends what fits |
| StreamBuffer.Buffer.Send | osy-freertos-posix-main/freertos/Source/stream_buffer.c:673-721 | sent whole exactly if there is room for data and header; a stream send short of its data fills the buffer |
| StreamBuffer.Buffer.ReadFrame | osy-freertos-posix-main/freertos/Source/stream_buffer.c:977-998 | exactly the oldest message, or nothing and nothing consumed if the caller has no room |
| StreamBuffer.Buffer.ReadMessage | osy-freertos-posix-main/freertos/Source/stream_buffer.c:968-1017 | oldest message or nothing in message mode; as many of the oldest bytes as wanted in stream mode |
| StreamBuffer.Buffer.Receive | osy-freertos-posix-main/freertos/Source/stream_buffer.c:911-965 | message mode gives the oldest message that fits or nothing; stream mode splits the contents in order |
| StreamBuffer.Buffer.NextMessageLength | osy-freertos-posix-main/freertos/Source/stream_buffer.c:871-908 | the length of the oldest message, 0 without one; its assertion never fails |
| StreamMachine.FrontRead | osy-freertos-posix-main/freertos/Source/stream_buffer.c:979-1008 | bytes read from the front of whole frames past a header give the length and then the data of the oldest message |
| StreamMachine.CopyOne | osy-freertos-posix-main/freertos/Source/stream_buffer.c:1155-1166 | the cell of the next byte is none of those of bytes sent and not yet taken or copied before it |
| StreamMachine.CopyInKeeps | osy-freertos-posix-main/freertos/Source/stream_buffer.c:1155-1166 | copying one byte in touches no byte sent and not yet taken |
| StreamMachine.PublishKeeps | osy-freertos-posix-main/freertos/Source/stream_buffer.c:759-763 | moving the head adds exactly the copied bytes to what was sent |
| StreamMachine.SpaceIsFree | osy-freertos-posix-main/freertos/Source/stream_buffer.c:505-526 | the space computed from three separate loads is at most what is free, however the reader moves in between |
| StreamMachine.CopyOutKeeps | osy-freertos-posix-main/freertos/Source/stream_buffer.c:1201-1213 | the bytes copied out are the next ones sent, however the writer moves in between |
| StreamMachine.TakeKeeps | osy-freertos-posix-main/freertos/Source/stream_buffer.c:1010-1014 | moving the tail takes exactly the copied bytes |
| StreamMachine.CountIsThere | osy-freertos-posix-main/freertos/Source/stream_buffer.c:1231-1249 | the byte count computed from separate loads is at most what is there |
| StreamMachine.ReadIsOldest | osy-freertos-posix-main/freertos/Source/stream_buffer.c:979-986 | what is read from the tail past a header begins with the oldest message, while the writer goes on |
| StreamMachine.PeekIsOldest | osy-freertos-posix-main/freertos/Source/stream_buffer.c:884-891 | a peek that has copied the header is about to return the length of the oldest message |
| StreamMachine.PeekTakesNothing | osy-freertos-posix-main/freertos/Source/stream_buffer.c:871-908 | a peek changes nothing but where it stands |
| StreamMachine.PeekAgrees | osy-freertos-posix-main/freertos/Source/stream_buffer.c:871-908 | on every interleaving with the writer a peek returns the length of the oldest message, or 0 if it found none, and its assertion that there is then no byte never fails |
| StreamMachine.HeaderIsOldest | osy-freertos-posix-main/freertos/Source/stream_buffer.c:979-986 | the header copied is that of the oldest message, and the whole message is among the bytes counted |
| StreamMachine.HeaderStep | osy-freertos-posix-main/freertos/Source/stream_buffer.c:988-1008 | after the header the copy goes on to the whole oldest message, or is given up if the caller has no room |
| StreamMachine.CountFrames | osy-freertos-posix-main/freertos/Source/stream_buffer.c:892-898 | between tail and head are whole frames: more than a header means a message, no more means nothing |
| StreamMachine.TakeFrame | osy-freertos-posix-main/freertos/Source/stream_buffer.c:1010-1014 | a finished message read takes exactly the oldest message |
| StreamMachine.StepKeeps | osy-freertos-posix-main/freertos/Source/stream_buffer.c:542-1017 | every load, byte copy, publication, test, peek, notification and time-out keeps ring, framing and notification invariants |
| StreamMachine.ReceivedIsPrefix | osy-freertos-posix-main/freertos/Source/stream_buffer.c:724-1017 | on every interleaving what is received is a prefix of what was sent, in bytes and in whole messages |
| StreamMachine.NoSharedCell | osy-freertos-posix-main/freertos/Source/stream_buffer.c:1141-1228 | writer and reader are never about to touch the same cell, and never a cell outside the store |
| StreamMachine.StaleIsUnder | osy-freertos-posix-main/freertos/Source/stream_buffer.c:497-527 | space and byte counts held by one side are never more than what is really there |
| StreamMachine.NoLostNotification | osy-freertos-posix-main/freertos/Source/stream_buffer.c:599-656 | a blocked, un-notified reader has fewer bytes than the trigger level unless the writer is just completing; symmetrically for a writer; the assertions that nobody else waits never fail |
| StreamMachine.SendEnters | osy-freertos-posix-main/freertos/Source/stream_buffer.c:560-601 | a send that may wait goes to check for space, unless it is a message that can never fit; a stream send asks for no more than the whole buffer |
| StreamMachine.SendBlocksExactly | osy-freertos-posix-main/freertos/Source/stream_buffer.c:607-626 | in every reachable state a send blocks exactly if less room is free than it needs, and is then registered with its notification cleared |
| StreamMachine.SendWakes | osy-freertos-posix-main/freertos/Source/stream_buffer.c:629-631 | a woken send is no longer registered and checks for space again, until its time has run out |
| StreamMachine.SendWrites | osy-freertos-posix-main/freertos/Source/stream_buffer.c:638-755 | with some room a message is written whole with its length or not at all, a stream as far as there is room; without, the room is looked up once more and is what was free at the second load of the tail |
| StreamMachine.SendCopies | osy-freertos-posix-main/freertos/Source/stream_buffer.c:1155-1166 | the copy writes byte by byte into the cells behind those sent, and nothing else |
| StreamMachine.SendPublishes | osy-freertos-posix-main/freertos/Source/stream_buffer.c:757-763 | only the end of the copy counts as sent, all of it and once |
| StreamMachine.SendNotifies | osy-freertos-posix-main/freertos/Source/stream_buffer.c:649-661 | a registered reader is notified exactly if the buffer holds at least the trigger level |
| StreamMachine.SendSends | osy-freertos-posix-main/freertos/Source/stream_buffer.c:647-670 | over any interleaving a send that has begun to write ends by having sent exactly that |
| StreamMachine.ReceiveBlocksExactly | osy-freertos-posix-main/freertos/Source/stream_buffer.c:796-846 | in every reachable state a receive blocks, or gives up, exactly if the buffer is empty, whatever the trigger level; else it starts to copy with all the bytes there are |
| StreamMachine.ReceiveWakes | osy-freertos-posix-main/freertos/Source/stream_buffer.c:825-829 | a woken receive is no longer registered and looks once more |
| StreamMachine.ReceiveCopies | osy-freertos-posix-main/freertos/Source/stream_buffer.c:1201-1213 | the copy goes on with the next byte sent, and nothing else |
| StreamMachine.ReceiveTakes | osy-freertos-posix-main/freertos/Source/stream_buffer.c:1004-1014 | at its end a stream receive has taken the smaller of what it wanted and what it counted |
| StreamMachine.StreamReceiveTakes | osy-freertos-posix-main/freertos/Source/stream_buffer.c:846-867 | over any interleaving a stream receive that has started to copy ends by having taken exactly that many bytes |
| StreamMachine.ReceiveNotifies | osy-freertos-posix-main/freertos/Source/stream_buffer.c:850-855 | a receive that took something notifies a registered writer |
| StreamMachine.PeekCounts | osy-freertos-posix-main/freertos/Source/stream_buffer.c:879-900 | a peek finds all the bytes there are, and answers 0 at once exactly if there are none |
| StreamMachine.NeverBothBlocked | osy-freertos-posix-main/freertos/Source/stream_buffer.c:792-854 | with a low enough trigger level reader and writer never block each other |
| StreamMachine.FinishQuietly | osy-freertos-posix-main/freertos/Source/stream_buffer.c:649-661 | a send that leaves fewer bytes than the trigger level notifies nobody |
| StreamMachine.SendBlocks | osy-freertos-posix-main/freertos/Source/stream_buffer.c:599-630 | a blocking send without room registers and blocks |
| StreamMachine.CanBothBlock | osy-freertos-posix-main/freertos/Source/stream_buffer.c:649-661 | with a higher trigger level a run in which both block for good |
| StreamMachine.NeverBothBlockedExactly | osy-freertos-posix-main/freertos/Source/stream_buffer.c:542-854 | they never block each other exactly if the trigger level is at most what one byte of data takes up: 1, or 9 with a message header |
| GreenThreads.ScanNearest | osy-gthreads-main/gthr.c:125-137 | the cyclic search finds the nearest ready slot |
| GreenThreads.PickFinds | osy-gthreads-main/gthr.c:125-137 | a slot is found exactly if one is ready other than, in the do-while form, the current one |
| GreenThreads.PickIsNext | osy-gthreads-main_test/gthr.c:167-196 | no ready slot is nearer in turn than the one picked; the idle-last form picks slot 0 only if no other is ready |
| GreenThreads.StepKeeps | osy-gthreads-main/gthr.c:93-270 | every call keeps exactly the current slot running and slot 0 ready when not current, if the idle thread neither delays nor suspends itself |
| GreenThreads.StepKeepsExactly | osy-gthreads-main-learn/gthr.c:251-270 | the invariant is kept exactly if the idle thread is so disciplined, or delays by the one tick its own yield uses up while another can run |
| GreenThreads.RunsOnExactly | osy-gthreads-main/gthr.c:231-248 | a delay or suspension leaves a running thread exactly if another slot is ready, or on its last tick where the call advances the timers |
| GreenThreads.StopNeverReturns | osy-gthreads-main/gthr.c:93-101 | the yield in gt_stop switches away for good, so its assertion is never reached |
| GreenThreads.TimersExactly | osy-gthreads-main/gthr.c:257-270 | a timer call takes one tick from each blocked thread, which is ready after its last one, and leaves all others alone |
| GreenThreads.TakesNext | osy-gthreads-main/gthr.c:125-137 | the slot switched to is the next in turn of those ready or made ready by this call |
| GreenThreads.YieldExactly | osy-gthreads-main/gthr.c:119-151 | gt_yield returns 1 exactly if it switched: the next in turn runs, the one that ran is ready, all others are as the timers left them; else it returns minus the number of waiting threads and nothing else happened |
| GreenThreads.GoExactly | osy-gthreads-main_test/gthr.c:218-257 | the first unused slot becomes ready, with no delay, exactly if there is one and a stack, and nothing else changes |
| GreenThreads.ResumeExactly | osy-gthreads-main/gthr.c:250-255 | a suspended slot in range becomes ready; nothing else changes |
| GreenThreads.GivesUpExactly | osy-gthreads-main/gthr.c:93-101 | a thread that stops, delays or suspends itself gives up its slot, blocks for its whole ticks, at least one, or is suspended, and then yields |
| GreenThreads.SchedulerEnds | osy-gthreads-main/gthr.c:103-115 | gt_yield returns 0, ending the scheduler loop, exactly if every other slot is unused, and any other refusal to switch happens only to the initial thread |
| GreenThreads.AtEveryMoment | osy-gthreads-main/gthr.c:93-151 | after every call of a run exactly the current slot is running, slot 0 is ready when not current, the assertion in gt_stop would not be reached, and the scheduler loop ends only with every other slot unused |
| GreenThreads.InitInv | osy-gthreads-main/gthr.c:76-89 | the table as initialised satisfies the invariant |
| GreenThreads.TurnNearer | osy-gthreads-main/gthr.c:119-151 | a switch that passes over a ready slot brings its turn nearer, and it stays ready |
| GreenThreads.BoundedWaiting | osy-gthreads-main/gthr.c:119-151 | a ready slot runs within N-1 switches whatever calls the others make, in the idle-last form every slot but 0 |
| GreenThreads.IdleIsLast | osy-gthreads-main_test/gthr.c:186-196 | the idle-last form switches to slot 0 only if nobody is ready but the one that gave up |
| GreenThreads.DelayStep | osy-gthreads-main/gthr.c:257-270 | only a timer call touches a blocked slot, and takes one tick |
| GreenThreads.DelayBegins | osy-gthreads-main/gthr.c:236-248 | the call blocks for its ticks, less the one its own yield counts in the cooperative do-while form |
| GreenThreads.ExactDelay | osy-gthreads-main/gthr.c:236-270 | a delay ends at exactly the max(1, ms / period)-th timer call, whatever interleaves |
| GreenThreads.DelayThenTurn | osy-gthreads-main/gthr.c:119-270 | a delayed thread stays blocked until exactly its last timer call, and after that runs within N-1 switches, whatever interleaves |
| GreenThreads.SuspendedStep | osy-gthreads-main/gthr.c:231-255 | only a resume of its number ends a suspension |
| GreenThreads.StaysSuspended | osy-gthreads-main/gthr.c:231-255 | over any run a suspended thread stays suspended as long as nobody resumes it |
| GreenThreads.ResumedThenTurn | osy-gthreads-main/gthr.c:231-255 | a suspension ends with exactly the first resume of its number, and the thread then runs within N-1 switches, in the idle-last form every slot but 0 |
| GreenThreads.VisitedNext | osy-gthreads-main/gthr.c:125-137 | the count of waiting threads kept by the search counts each slot once around the table |
| GreenThreads.Scheduler.constructor | osy-gthreads-main/gthr.c:76-89 | slot 0 running, all others unused |
| GreenThreads.Scheduler.ManageTimers | osy-gthreads-main/gthr.c:257-270 | every blocked slot loses one tick and those at none become ready |
| GreenThreads.Scheduler.SearchFromCurrent | osy-gthreads-main/gthr.c:125-137 | finds what the cyclic search specifies, or counts the blocked and suspended |
| GreenThreads.Scheduler.SearchAfterCurrent | osy-gthreads-main-learn/gthr.c:170-183 | the same for the do-while form, which never finds the current slot |
| GreenThreads.Scheduler.ReadyNonidle | osy-gthreads-main_test/gthr.c:188-195 | the lowest ready slot but 0 |
| GreenThreads.Scheduler.SearchIdleLast | osy-gthreads-main_test/gthr.c:167-196 | the idle-last choice |
| GreenThreads.Scheduler.Search | osy-gthreads-main-learn/gthr.c:158-183 | the search of the form at hand finds the choice specified, or counts the waiting |
| GreenThreads.Scheduler.YieldCall | osy-gthreads-main-learn/gthr.c:158-200 | switches to the next in turn exactly if there is one, returning 1, else returns minus the number of waiting threads; all other slots as they were, in each of the three forms |
| GreenThreads.Scheduler.Go | osy-gthreads-main_test/gthr.c:218-257 | the first unused slot becomes ready, or -1 if there is none or no stack |
| GreenThreads.Scheduler.Stop | osy-gthreads-main_test/gthr.c:103-111 | a thread gives up its slot for good; the initial thread just returns |
| GreenThreads.Scheduler.Delay | osy-gthreads-main_test/gthr.c:288-301 | blocked for the ticks, or nothing for a delay that is not positive |
| GreenThreads.Scheduler.Suspend | osy-gthreads-main_test/gthr.c:282-286 | suspended and switched away from |
| GreenThreads.Scheduler.Resume | osy-gthreads-main-learn/gthr.c:272-281 | a suspended slot becomes ready; every other slot, and any number out of range, is left alone |
| Monitor.LockKeeps | helper-threads.cpp:188-213 | the mutex has one holder, the thread between lock and unlock or wait |
| Monitor.OrderKeeps | helper-threads.cpp:188-213 | what was taken and what is queued is, in order, what was pushed |
| Monitor.SignalKeeps | helper-threads.cpp:188-213 | while a consumer waits there are as many awake consumers as queued items, or a signal on its way; a waiting producer has a full queue, or a signal on its way |
| Monitor.CountKeeps | helper-threads.cpp:219-243 | as many consumers have ended as pills were taken, and together they hold the sum of the data taken |
| Monitor.ConsumerKeeps | helper-threads.cpp:233-243 | each consumer holds the sum of its own data, and has taken a pill exactly if it ended |
| Monitor.StepKeeps | helper-threads.cpp:188-243 | every step, wakeups for no reason included, keeps all of this |
| Monitor.InitInv | helper-threads.cpp:173-179 | it holds at the start |
| Monitor.HolderMoves | helper-threads.cpp:188-213 | the holder of the mutex can always go on |
| Monitor.NeverDeadlocked | helper-threads.cpp:188-243 | every unfinished state has a runnable thread, for any capacity and any number of consumers, with single signals only |
| Monitor.DeadlockFreeExactly | helper-threads.cpp:219-243 | no reachable state is stuck exactly if there is a consumer or room for all items |
| Monitor.MeasureStep | helper-threads.cpp:188-243 | every step but a wakeup for no reason leaves less to be done |
| Monitor.EveryRunEnds | helper-threads.cpp:245-265 | the demonstration ends: a bound on the number of steps of any run, and until it is finished it can go on |
| Monitor.AllConsumed | helper-threads.cpp:259-269 | at the end of every run that finishes the queue is empty, data was taken before pills in order, each consumer took exactly one pill, and the sums total n (n + 1) / 2 |
| Monitor.SharedQueue.TestAndPush | helper-threads.cpp:191-195 | waits exactly if full, else the ring represents the queue with the value appended |
| Monitor.SharedQueue.TestAndPop | helper-threads.cpp:203-207 | waits exactly if empty, else gives the oldest value and the ring represents the rest |
| Monitor.SharedQueue.constructor | helper-threads.cpp:173-179 | the ring represents the empty queue |
| Rings.WindowStore | cv/cv_thread/chetasheet-threads.cpp:144-150 | writing the cell behind the last one appends to the queue the ring stands for |
| Rings.Ring.constructor | cv/cv_thread/chetasheet-threads.cpp:142-142 | the ring stands for the empty queue |
| Rings.Ring.Store | cv/cv_thread/chetasheet-threads.cpp:146-150 | the ring stands for the queue with the item appended |
| Rings.Ring.Fetch | cv/cv_thread/chetasheet-threads.cpp:154-157 | the oldest item is returned and the ring stands for the rest |
| Rings.Ring.Push | cv/cv_thread/chetasheet-threads.cpp:144-151 | 0 and appended if there is room, -1 and nothing changed if not |
| Rings.Ring.Pop | cv/cv_thread/chetasheet-threads.cpp:152-159 | 0 and the oldest item taken if there is one, -1 and nothing changed if not |
| SemRing.TokensKept | cv/cv_thread/chetasheet-threads.cpp:162-175 | every token of the three semaphores is accounted for: in its semaphore, in the ring, or in the hands of one client |
| SemRing.ItemsKept | DU/DU05_test/socket_srv.cpp:355-426 | items leave in the order they entered, and the shared counters count them up to the client in mid-section |
| SemRing.AdmissionsKept | DU/DU05_test/socket_srv.cpp:545-594 | the admission counters count the admitted clients and stay within their limits |
| SemRing.StepKeeps | DU/DU05_test/socket_srv.cpp:325-598 | every semaphore operation and half section of any number of clients, timed-out waits and sign-offs included, keeps all of this |
| SemRing.InitInv | cv/cv_thread/chetasheet-threads.cpp:142-142 | it holds at the start, for any clients |
| SemRing.ResultsAreZero | cv/cv_thread/chetasheet-threads.cpp:162-175 | in every reachable state a producer about to push finds room and a consumer about to pop an item, so the ignored results are always 0 |
| SemRing.FirstInFirstOut | DU/DU05_test/socket_srv.cpp:355-424 | in every reachable state the items that left are the first ones that entered, in order, and the rest stand in the ring |
| SemRing.OwnItemsEnter | DU/DU05_test/socket_srv.cpp:405-426 | on every run what a producer has put in is what it set out with, each item once and in its own order, but for one still under way |
| SemRing.ItemsAreHandedOn | DU/DU05_test/socket_srv.cpp:355-364 | in every reachable state items enter from producers only and leave to consumers only, and a consumer holds the item it took out last |
| SemRing.RunKeeps | DU/DU05_test/socket_srv.cpp:325-598 | the accounting holds after every run |
| SemRing.MutualExclusion | DU/DU05_test/socket_srv.cpp:410-424 | in every reachable state at most one client is inside a critical section |
| SemRing.AdmissionsHold | DU/DU05_test/socket_srv.cpp:545-594 | in every reachable state the counters count the admitted clients and stay within their limits, and the guard at sign-off never fails |
| SemRing.AdmittedWhileRoom | DU/DU05_test/socket_srv.cpp:549-558 | a client is admitted exactly if fewer of its role are than allowed, and then counted; else it is refused and nothing else changes |
| SemRing.OneOperationLess | DU/DU05_test/socket_srv.cpp:405-598 | each operation brings its client one nearer to its end, idle or gone, and moves no other |
| SemRing.TotalsOutside | DU/DU05_test/socket_srv.cpp:355-424 | in every reachable state, outside critical sections item_num is total_produced minus total_consumed and the length of the queue |
| SemRing.GivingUpTakesNothing | DU/DU05_test/socket_srv.cpp:340-353 | a wait that times out or fails takes neither an item nor a token |
| SemRing.NeverBothWaiting | cv/cv_thread/chetasheet-threads.cpp:162-175 | in every reachable state in which no client can go on by itself, a waiting producer has a full ring and a waiting consumer an empty one, so they never wait for each other |
| SemRing.SectionEffect | DU/DU05_test/socket_srv.cpp:355-426 | both halves of a section together put the own item behind the others, or take the oldest one, and count it |
| SemRing.Shared.constructor | DU/DU05_test/socket_srv.cpp:49-60 | the shared memory as it starts shows the initial state |
| SemRing.Shared.Put | DU/DU05_test/socket_srv.cpp:412-422 | a producer section appends its own item to the real ring, with status 0, and counts it, in the state specified |
| SemRing.Shared.TakeOut | DU/DU05_test/socket_srv.cpp:355-360 | a consumer section takes the oldest item off the real ring, with status 0, and counts it, in the state specified |

## Left out

- The interrupt variants, static allocation, deletion, reset, trace and coverage macros of the kernel files: they repeat the modelled code or depend on the port.
- `xStreamBufferSetTriggerLevel` while a reader waits: the notification property is stated for a fixed trigger level.
- The waiting loop of `xStreamBufferSend` and `xStreamBufferReceive` is modelled in StreamMachine, not in the class of StreamBuffer, whose Send and Receive are the calls without a block time.
- Widths of integers: tick counters wrap explicitly, buffer counts are proved to stay within `size_t`, event bits are sets of bit positions; the other counters, and the consumers' sums, are unbounded.
- CoRoutines holds list items by the number of their co-routine and lists by name, each list being the value that KernelList proves the pointer ring to represent; aliasing between control blocks is not modelled there.
- EventGroups keeps the waiting list as a sequence and the tasks' event list items as a map; that a woken task then competes for the processor is not modelled. Arguments that fail the assertions on control bits are excluded.
- Bits 25 and 31 of an event item, set by the kernel when it stores an answer, and the reset of the item afterwards, stand for what `tasks.c` does at lines 3122-3145, 3251-3297 and 4671-4682; priorities there are not modelled.
- The layout of event bits for 16-bit ticks: control bits are 24 to 31, as configured for 32-bit ticks.
- The bodies of co-routines, tasks and green threads, context switches, stacks, signal masks, thread names, `g_sys_ticks` and `cpu_ticks`.
- GreenThreads.Scheduler.Resume: the plain form does not check the number of the slot, so its caller must; the model requires it for that form only.
- Rings.Ring: items are values; copying strings and cutting them to the length of a cell is not modelled.
- The pause semaphore, the sockets, the logging and the message-queue mode of the server, and the block in its producer function that runs in both modes and sends nothing.
- The other sections of `helper-threads.cpp` and `chetasheet-threads.cpp`, the exercises with sockets, forks and pipes, the tic-tac-toe and calculator servers, and the repeated queue servers: input and output, or the same shape with nothing harder.
