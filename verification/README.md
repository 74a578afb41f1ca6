# FlexPRET OS: locks, slots and nested schedulers

FlexPRET is a processor with eight hardware threads; FlexPRET OS is the small CMSIS-RTOS2 system on
it. Three parts of it depend on what happens between threads or between nested calls, and a few
loops depend on exact bit or time arithmetic. This project models them and proves what they promise.

**The mutex** (MutexProtocol, MutexTheorems, MutexCalls, MutexCleanup, MutexCode, Polling). One atomic-swap CSR and
two plain fields are shared by threads that truly run at once. MutexProtocol makes every access one
step of one thread and keeps an invariant over all interleavings; MutexTheorems draws mutual
exclusion and the meaning of every return value from it, with and without threads that die inside a
robust mutex. MutexCalls follows one thread through a whole acquire, release or exit, and says what it comes
to under any events of the others. MutexCode is the C code again, with arbitrary interference before each access, each
access proved to be the protocol's step. A cleanup may run on a thread's own exit, for a thread that has
been stopped, or for one that is gone and that the mutex does not name; MutexCleanup shows when its CSR
write is sound, and when a terminate beyond these limits breaks exclusion.

**Slots and modes** (Registers, SlotTable, KernelSpec, KernelTables, Kernel, KernelRuns, KernelHistory, KernelLeaks,
History, SlotLocking, SlotRaces, SlotRuns, SlotLeaks, CreationRuns). Eight 4-bit
slots in one register say which thread runs when, two mode bits a thread in another say whether it is
hard or soft, active or asleep. Kernel is the imperative code over the registers and tables, each
method proved equal to its function in KernelSpec; KernelTables and KernelHistory say entry by entry what
those functions leave, after one call and over a run; KernelRuns proves over every run of those
functions that no thread joined or terminated keeps a slot until it is given a priority again and that nobody
starves, with the exact condition under which a call starves somebody; KernelLeaks has the exact condition under
which a call leaves a slot with an ended thread. SlotLocking takes the calls apart into single accesses,
interleaves them, and proves that they add up to the same functions one after another. SlotRuns and SlotLeaks
carry the theorems on starvation and on leaks over to those interleavings, and SlotRaces and CreationRuns show the
races between two calls that stand in their way.

**Ready queues** (ReadyList, ReadyQueue, Preemption, PreemptionTheorems, Schedules, ScheduleRuns,
NestedHandler). Linked
lists over a fixed pool, and a timer handler that runs jobs and is interrupted by itself. ReadyQueue is
the pointer code; Preemption the handler, the main loop and the interrupts as a step system over the
stack of active calls; NestedHandler the recursive code over the pointers.

**Small loops** (BitBang, Duff, Stats, Hex): transmitters with their receivers, an unrolled copy, a
sampler of split counters and a number printer.

Findings, each with its exact condition and, where it is about a run, with the run:

- set_slot_num refuses the last disabled slot and its callers ignore that: KernelRuns.StepFeedsExactly,
  KernelRuns.EighthThreadStarves;
- a second osKernelStart without a reset gives soft threads no slot: KernelRuns.SecondStartStarvesExactly;
- osThreadSetPriority does not ask whether its thread lives, and gives an ended one a slot:
  KernelLeaks.StepLeaksExactly, SlotLeaks.CallKeepsExactly, KernelLeaks.DeadThreadHoldsSlot, KernelLeaks.DeadThreadHoldsSoftSlot;
- a terminate or a promotion during a creation can leak the SOFT slot: SlotRaces.CreationRaceLeaksExactly,
  SlotRaces.PromotionRaceLeaksExactly, CreationRuns.SoftSlotLeaks, CreationRuns.SoftSlotLeaksByPromotion;
- so can a demotion of a thread that is being terminated: SlotRaces.DemotionRaceLeaksExactly,
  CreationRuns.SoftSlotLeaksByDemotion;
- a demotion during a creation can starve the demoted thread: SlotRaces.CreationRaceStarvesExactly,
  CreationRuns.DemotedThreadStarves;
- terminating a thread twice can break a robust mutex: MutexCleanup.TerminateAgainExactly;
- so can terminating one that runs on, and exactly such a one: MutexCleanup.TerminateExactly;
- polling timeouts above 4294960000 do not give up in time, above 4294967280 never:
  Polling.GivesUpInTimeExactly, Polling.GivesUpEverExactly;
- a spinning wait whose timeout + ctime wraps gives up at once, and one that first looks at the clock after it
  has wrapped goes on past its time: Polling.GoesOnExactly, Polling.GoesOnFails, Polling.SpinsPastItsTime;
- deadlines that wrap 32 bits are taken for early ones: Schedules.EarliestDeadlineExactly,
  ScheduleRuns.WrappedDeadlineFirst;
- nested handlers can hold the same preempted job: PreemptionTheorems.StackOrder,
  ScheduleRuns.SameJobPreemptedTwice;
- a copy of zero elements copies eight: Duff.Moved.

The
comment at tests/examples/duty_comm.c:7 speaks of 75% and 25% high times; the code's are 700 and 350 of
1200, and the model follows the code.

`dafny verify dfyconfig.toml` checks the whole project.

## Model

| member | source | states |
|---|---|---|
| `Registers.GetSetSlots` | src/os/include/flexpret_threads.h:9-33 | get_slots gives back every array of eight 4-bit codes that set_slots packed |
| `Registers.SetGetSlots` | src/os/include/flexpret_threads.h:9-33 | packing what was unpacked gives the same 32-bit register: no other register value has the same slots |
| `Registers.GetSetTmodes` | src/os/include/flexpret_threads.h:65-88 | get_tmodes gives back every array of eight 2-bit modes; set_tmodes clears the upper half of the register |
| `Registers.OtherBitsKept` | src/os/src/flexpret_scheduler.c:115-151 | set_thread_mode changes no bit but the two of its thread, for every mode code |
| `Registers.SetThreadModeMeaning` | src/os/src/flexpret_scheduler.c:115-151 | a full mode is stored as given, HARD and SOFT keep the zombie bit, ACTIVE and ZOMBIE keep the soft bit, an unknown code changes nothing, no other thread is touched |
| `Registers.SetThreadModeCommutes` | src/os/src/flexpret_scheduler.c:115-163 | mode changes of two threads give the same register in either order, so the unlocked ones cannot be lost |
| `Registers.UnpackFreq` | src/os/include/flexpret_scheduler.h:7-9 | the three counts packed by osSchedulerGetFreq come back without overlap |
| `Kernel.OsState.OsSchedulerGetFreq` | src/os/src/flexpret_scheduler.c:10-30 | the packed result holds the numbers of slots of the thread, of SOFT slots and of slots not disabled |
| `SlotTable.ReplaceFirstMeaning` | src/os/src/flexpret_scheduler.c:58-78 | rewriting the first k entries moves exactly min(k, present) of them from one code to the other, the lowest ones, and nothing else |
| `SlotTable.SetSlotNumMeaning` | src/os/src/flexpret_scheduler.c:33-82 | set_slot_num fails, changing nothing, exactly when it would have to use the last disabled slot; otherwise exactly n slots hold the id, the disabled count moves by the opposite amount and every other slot stays in place |
| `Kernel.OsState.SetSlotNum` | src/os/src/flexpret_scheduler.c:33-82 | the loops over the local array leave the register holding that result, and the status says which case it was |
| `Kernel.OsState.Rewrite` | src/os/src/flexpret_scheduler.c:58-78 | each of the two rewriting loops turns the first k matching entries, and always finds them before the array ends when there are that many |
| `Kernel.OsState.CountOtherSoft` | src/os/src/flexpret_scheduler.c:200-212 | the counting loop is non-zero exactly when another live thread has its soft bit set |
| `Kernel.OsState.CountSlots` | src/os/src/flexpret_scheduler.c:231-239 | the loop counts the slots of the thread and the SOFT slots |
| `Kernel.OsState.SetThreadMode` | src/os/src/flexpret_scheduler.c:115-151 | the bit writes on the register are the mode change on the decoded table |
| `Kernel.OsState.SrttTerminate` | src/os/src/flexpret_scheduler.c:196-219 | new tables as a function of the old: the slots of the thread go, and the SOFT slots too when no other live soft thread is left |
| `Kernel.OsState.ChangeSrttToHrtt` | src/os/src/flexpret_scheduler.c:221-261 | new tables as a function of the old for a promotion |
| `Kernel.OsState.ChangeHrttToSrtt` | src/os/src/flexpret_scheduler.c:263-302 | new tables as a function of the old for a demotion |
| `Kernel.OsState.ThreadAfterCreate` | src/os/src/flexpret_scheduler.c:304-334 | new tables as a function of the old for a creation |
| `Kernel.OsState.ThreadTerminate` | src/os/src/flexpret_threads.c:101-137 | new tables as a function of the old, with the mode deciding when the priority is neither of the two |
| `Kernel.OsState.OsThreadNew` | src/os/src/flexpret_threads.c:166-223 | new tables as a function of the old, the refusals at eight threads and at other priorities, and the id handed out |
| `Kernel.OsState.OsThreadSetPriority` | src/os/src/flexpret_threads.c:278-334 | new tables as a function of the old; refused exactly for an unsupported new priority |
| `Kernel.OsState.Call` | src/os/src/flexpret_threads.c:349-440 | every call that touches slots, modes or lives has the effect KernelSpec gives it; a thread lives afterwards if and only if the call created it, or it lived and the call was neither its exit nor its terminate |
| `Kernel.OsState.OsKernelStart` | src/os/src/flexpret_kernel.c:144-187 | the filling loop and the two register writes give the start tables; in the register thread 0 and the live threads of a supported priority are awake and no other, and such a thread above 0 is soft if and only if its priority is normal |
| `Kernel.OsState.OsKernelReset` | src/os/src/flexpret_kernel.c:232-257 | the register constants and the table loop give the reset state: thread 0 awake and hard, all others asleep, hard and ended |
| `Kernel.ResetRegisters` | src/os/src/flexpret_kernel.c:233-236 | the constants 0xfffffff0 and 0x55555554 decode to thread 0 in slot 0 and hard active, the other slots disabled and the other threads hard zombies |
| `KernelTables.LivesExactly` | src/os/src/flexpret_threads.c:85-223 | after any call a thread lives if and only if it was just created, with a free number and a supported priority or none given, or lived and neither exited nor was terminated by it |
| `KernelTables.AttributesExactly` | src/os/src/flexpret_threads.c:166-334 | the priority and joinable tables and the thread count after any call: a creation takes the attributes given, normal and detached without any; a supported priority call writes the entry it names; all else stays |
| `KernelTables.ModesExactly` | src/os/src/flexpret_scheduler.c:115-163 | the zombie and soft bit of every thread after any call, running or not: suspend, closing join and terminate put to sleep, resume and creation wake, a creation and a new priority decide the soft bit, nobody else is touched |
| `KernelTables.StartModesExactly` | src/os/src/flexpret_kernel.c:144-187 | after osKernelStart, from any tables: awake exactly thread 0 and the live threads of a supported priority, hard exactly thread 0 and the live realtime ones, attributes and lives unchanged |
| `KernelTables.StartSlotsExactly` | src/os/src/flexpret_kernel.c:148-175 | each slot after osKernelStart: thread 0 and the live realtime threads have their own, the first live normal thread has the SOFT slot if none is remembered, the others are disabled |
| `KernelTables.ResetExactly` | src/os/src/flexpret_kernel.c:232-257 | after osKernelReset thread 0 is awake, hard and in slot 0, the others asleep, hard, ended and without a slot |
| `KernelRuns.StepConserves` | src/os/src/flexpret_threads.c:101-440 | every call, whatever room there is, keeps: a slot belongs only to an existing hard thread that was not joined or terminated since it was last given a priority, a SOFT slot exists only beside a soft thread that was not, priorities and soft bits agree, a thread ever joined or terminated stays dead |
| `KernelRuns.SleepersExactly` | src/os/src/flexpret_threads.c:349-367 | who is asleep after a call: suspending, joining and terminating put the thread to sleep, resuming and creating wake it, nothing else changes a zombie bit |
| `KernelHistory.SlotsExactly` | src/os/src/flexpret_scheduler.c:196-334 | after any call so many slots of the thread named or created and so many SOFT slots are left, by the room there was and by who else is soft and alive; every other slot stays in place |
| `KernelHistory.CreatedSlots` | src/os/src/flexpret_scheduler.c:304-334 | the same for thread_after_create by itself, also over a thread that has already ended |
| `KernelHistory.AsleepExactly` | src/os/src/flexpret_threads.c:349-440 | over every run from osKernelStart a thread sleeps if and only if the last call that says so was a suspend, a join that found it ended or a terminate, not a resume or its creation; without one, if and only if it was not alive at the start |
| `KernelHistory.AliveExactly` | src/os/src/flexpret_threads.c:85-223 | and lives if and only if the last such call was its creation, not its exit or terminate; without one, as at the start |
| `KernelHistory.JoinExactly` | src/os/src/flexpret_threads.c:375-402 | a join of a detached or running thread changes nothing; any other closes the thread, puts it to sleep and takes its slots |
| `KernelHistory.JoinAfterExit` | src/os/src/flexpret_threads.c:375-402 | a joinable thread exits, then any calls happen: its next join closes it and leaves it no slot; before its exit the join waits |
| `KernelRuns.StartConserves` | src/os/src/flexpret_kernel.c:144-187 | osKernelStart establishes that invariant, also over threads terminated before it |
| `KernelRuns.StepFeedsExactly` | src/os/src/flexpret_scheduler.c:49-57 | a call starves a live thread if and only if it needs a slot and finds fewer than two disabled ones (the refusal of set_slot_num that its callers ignore) |
| `KernelRuns.SoftIdMeaning` | src/os/src/flexpret_kernel.c:159-166 | the one SOFT slot of the start goes to the first soft thread, and to nobody when an earlier start left one remembered |
| `KernelRuns.StartFeedsExactly` | src/os/src/flexpret_kernel.c:144-187 | after osKernelStart nobody starves if and only if default_soft_slot_id was -1 or no live soft thread exists |
| `KernelRuns.SecondStartStarvesExactly` | src/os/src/flexpret_kernel.c:161-166 | a second osKernelStart without a reset starves somebody if and only if a live soft thread exists |
| `KernelRuns.SecondStartStarves` | src/os/src/flexpret_kernel.c:144-187 | reset, one soft thread, two starts: the failing state reached |
| `KernelRuns.EighthThreadStarves` | src/os/src/flexpret_scheduler.c:54-57 | reset, six hard threads, start: the next hard thread gets no slot, the failing state of StepFeedsExactly reached |
| `KernelRuns.RunFeeds` | src/os/src/flexpret_scheduler.c:196-334 | no starvation is kept over every run in which each call that needs a slot finds two disabled ones |
| `KernelRuns.NobodyStarves` | src/os/src/flexpret_kernel.c:144-187 | from osKernelStart over any such run of create, priority change, suspend, resume, exit, join and terminate every live hard thread has a slot and a live soft thread implies a SOFT slot |
| `KernelRuns.NobodyStarvesAfterReset` | src/os/src/flexpret_kernel.c:232-257 | the same from osKernelReset in any state and any calls before the start that leave thread 0 hard |
| `KernelRuns.AllSlotsReturned` | src/os/src/flexpret_threads.c:101-137 | however a run went, once every thread but 0 is joined or terminated, and is so again if it was given a priority since, each slot is disabled or thread 0's |
| `KernelRuns.ThreadZeroKeepsSlots` | src/os/src/flexpret_scheduler.c:33-82 | a call that does not name thread 0 moves none of its slots and gives it none |
| `KernelRuns.SlotsRestored` | src/os/src/flexpret_threads.c:375-425 | over every run from a start that leaves thread 0 alone, closing all other threads in that sense brings the slots back to their reset values |
| `KernelRuns.RegisterRestored` | src/os/src/flexpret_kernel.c:233-234 | the slots register then holds exactly 0xfffffff0 |
| `KernelLeaks.StepLeaksExactly` | src/os/src/flexpret_threads.c:278-334 | where nothing has leaked, a call leaves a slot with a thread ever joined or terminated, or a SOFT slot beside only such soft threads, if and only if it changes the priority of such a thread, finds two disabled slots and, to make it soft, no soft thread left that has not ended |
| `KernelLeaks.RunLeaksExactly` | src/os/src/flexpret_threads.c:278-334 | over every run: nothing has leaked at any time if and only if no call does that |
| `KernelLeaks.SlotsReturnedExactly` | src/os/src/flexpret_threads.c:101-137 | when every thread but 0 has ended, each slot is disabled or thread 0's if and only if nothing has leaked |
| `KernelLeaks.SlotConservation` | src/os/src/flexpret_threads.c:375-425 | from any start, over every run of calls that leave thread 0 alone and among which there is no such call, once every other thread has ended the slots are back at their reset values |
| `KernelLeaks.DeadThreadHoldsSlot` | src/os/src/flexpret_scheduler.c:251-254 | reset, one soft thread, start, terminate, realtime priority: the dead thread has a slot |
| `KernelLeaks.DeadThreadHoldsSoftSlot` | src/os/src/flexpret_scheduler.c:293-296 | the same with a hard thread and normal priority: a SOFT slot and no live soft thread |
| `SlotLocking.CallAtomic` | src/os/src/flexpret_scheduler.c:188-334 | a call left to itself, access by access, with the unlocked tables changing at every access, does to slots and soft bits what its function in KernelSpec does at once on the values it saw |
| `SlotLocking.AccessLinear` | src/os/src/flexpret_scheduler.c:196-334 | every access of the lock holder stays on the way to that result |
| `SlotLocking.FireLinear` | src/os/src/flexpret_scheduler.c:85-113 | every event of any thread keeps the tables equal to the finished calls one after another plus the holder's progress |
| `SlotLocking.NoUpdateLost` | src/os/src/flexpret_scheduler.c:85-113 | in every interleaving, whenever slot_mutex is free the slots register and the soft bits hold what the calls leave when run one after another in the order they took the lock, and at any time each zombie bit is what the suspends, resumes, zombie writes and clearing creations of that one thread wrote last |
| `SlotLocking.ZombieKeepsSoftBits` | src/os/src/flexpret_scheduler.c:115-163 | suspend, resume and zombie writes outside the lock change no soft bit, so no count of soft threads |
| `SlotLocking.RunWrites` | src/os/src/flexpret_scheduler.c:115-163 | in every interleaving the zombie bit, func and priority of each thread are what the events on that thread wrote last, and what they were if none did |
| `SlotLocking.CreationClears` | src/os/src/flexpret_scheduler.c:304-334 | a creation that reads a supported priority has cleared its thread's zombie bit by its end, whatever came between |
| `SlotRaces.CallFeedsExactly` | src/os/src/flexpret_scheduler.c:85-113 | a finished call, with whatever it saw as long as it saw everybody alive, starves a created live thread if and only if it had to take a slot for one and found fewer than two disabled, or made one soft and counted a soft thread although there was no SOFT slot |
| `SlotRaces.CreationRaceLeaksExactly` | src/os/src/flexpret_threads.c:214-221 | a terminate between a creation's func write and its critical section leaves SOFT slots with no live soft thread if and only if there were some, it counted the new thread as soft, that one turns out hard, and it counted nobody else |
| `SlotRaces.PromotionRaceLeaksExactly` | src/os/src/flexpret_scheduler.c:240-258 | a promotion in the same gap leaves them under the same condition |
| `SlotRaces.DemotionRaceLeaksExactly` | src/os/src/flexpret_threads.c:109-121 | a demotion of a thread between a terminate's read of its priority and the terminate's critical section leaves SOFT slots with no other soft thread if and only if the demotion saw none and there were some or room for one |
| `SlotRaces.CreationRaceStarvesExactly` | src/os/src/flexpret_scheduler.c:282-295 | a demotion in the gap of a creation leaves the demoted thread without a SOFT slot if and only if there was none and it counted somebody or found no room |
| `CreationRuns.CallAlone` | src/os/src/flexpret_scheduler.c:188-334 | a call that runs while nobody else moves comes to its end and has seen the tables as they stand |
| `CreationRuns.SoftSlotLeaks` | src/os/src/flexpret_threads.c:214-221 | an event sequence from osKernelStart to the leak by a terminate |
| `CreationRuns.SoftSlotLeaksByPromotion` | src/os/src/flexpret_scheduler.c:240-258 | one to the leak by a promotion |
| `CreationRuns.SoftSlotLeaksByDemotion` | src/os/src/flexpret_threads.c:109-121 | one to the leak by a demotion of a thread being terminated |
| `CreationRuns.DemotedThreadStarves` | src/os/src/flexpret_scheduler.c:263-302 | an event sequence from osKernelStart to a live soft thread without a SOFT slot |
| `CreationRuns.TwoThreadsReached` | src/os/src/flexpret_kernel.c:232-257 | the beginnings of all four are reached from a reset |
| `SlotRuns.AccessGood` | src/os/src/flexpret_scheduler.c:188-334 | every access keeps what the lock holder has read in step with who is alive |
| `SlotRuns.NextGood` | src/os/src/flexpret_scheduler.c:85-113 | every event the run theorem allows keeps its invariant |
| `SlotRuns.NobodyStarvesInterleaved` | src/os/src/flexpret_scheduler.c:188-334 | from osKernelStart over every interleaving of creations, endings, priority changes and terminations in which calls that take a slot for a live thread find two and no demotion miscounts a half-created thread: whenever slot_mutex is free every created live thread has its slot or SOFT slot |
| `SlotLeaks.CallKeepsExactly` | src/os/src/flexpret_scheduler.c:196-302 | where nothing has leaked, a finished call, with whatever it saw, leaves a slot with an ended thread or a SOFT slot without a soft thread not ended if and only if it gives an ended thread a slot, or names or counts the wrong one: the last such soft thread ends, an ended or half-created one was counted, or an ended one is made soft |
| `SlotLeaks.StepTidy` | src/os/src/flexpret_scheduler.c:85-113 | every orderly event keeps the invariant under which no finished call does that |
| `SlotLeaks.NothingLeaksInterleaved` | src/os/src/flexpret_threads.c:101-137 | from osKernelStart over every interleaving, with or without room, in which no terminate or promotion counts a half-created thread and no priority call and terminate of one thread meet: whenever slot_mutex is free a slot belongs only to a created hard thread that no terminate or join has finished with, and a SOFT slot stands only beside such a soft one |
| `SlotLeaks.SlotsReturnedInterleaved` | src/os/src/flexpret_threads.c:375-425 | so when all threads but 0 have ended and 0 is hard, each slot is disabled or thread 0's |
| `MutexProtocol.AdvanceKeepsInv` | src/os/src/flexpret_mutex.c:77-170 | each single access to the CSR, owner, count or active keeps the lock invariant, whatever the other threads are in the middle of |
| `MutexProtocol.FireKeepsInv` | src/os/src/flexpret_mutex.c:77-196 | every event keeps it: calls beginning, deletion, stops, resumes, exits, and terminations of stopped threads or of gone ones the mutex no longer names |
| `MutexTheorems.AtMostOneInside` | src/os/src/flexpret_mutex.c:77-170 | in every run, robust cleanup included, whose terminates name a stopped thread or a gone one that the mutex does not name: at most one thread is between a successful acquire and its final release |
| `MutexTheorems.NonRobustStrict` | src/os/src/flexpret_mutex.c:77-170 | without the robust attribute, in every run whatsoever: at most one thread inside, a free CSR has no owner, count is the nesting depth at rest, and the bad-status branch is unreachable |
| `MutexTheorems.StrictWithoutCleanup` | src/os/src/flexpret_mutex.c:86-96 | the same for any mutex while no thread's CSR has been freed for it |
| `MutexTheorems.ReleaseRefusedExactly` | src/os/src/flexpret_mutex.c:157-163 | the unlocked owner reads refuse a release exactly to a thread that is not inside |
| `MutexTheorems.AcquireResult` | src/os/src/flexpret_mutex.c:77-150 | an acquire returns osOK exactly when it has taken the caller one level deeper; any other result leaves its depth; a timeout only over a taken CSR |
| `MutexCalls.NeverNested` | src/os/src/flexpret_mutex.c:99-103 | in every run whatsoever of a mutex that is not recursive nobody is inside more than once |
| `MutexCalls.AcquireExactly` | src/os/src/flexpret_mutex.c:77-150 | a whole acquire under any events of the others, the caller stopped and resumed among them: from inside it returns osOK if and only if the mutex is recursive, with timeout 0 osErrorResource if and only if it is not; otherwise osErrorResource means timeout 0, osErrorTimeout a finite one above 0, osErrorParameter a deleted mutex, and a mutex deleted before always gives it |
| `MutexCalls.MissedExactly` | src/os/src/flexpret_mutex.c:98-106 | once the mutex was seen active and the CSR found taken, as a caller from inside always finds it: osOK for such a caller if and only if the mutex is recursive, and with timeout 0 osErrorResource for everybody else |
| `MutexCalls.ReleaseExactly` | src/os/src/flexpret_mutex.c:152-170 | a whole release under the same events: osOK if and only if the caller is inside, one level up, and the CSR no longer its own at the outermost; osErrorParameter exactly for a deleted mutex |
| `MutexCalls.ExitExactly` | src/os/src/flexpret_threads.c:73-97 | a thread exits under any events of the others: from inside a robust mutex that is not deleted it leaves the CSR freed, from inside one that is not robust it leaves it taken, from outside it frees nothing |
| `MutexCalls.DeleteIsFinal` | src/os/src/flexpret_mutex.c:184-196 | osMutexDelete writes active alone, and the mutex is inactive in every later run |
| `MutexCalls.StopsInPlace` | src/os/src/flexpret_threads.c:349-367 | a thread suspended anywhere in a call stays at its place and depth until it is resumed, and goes on from there |
| `MutexTheorems.DirectPathHandsBack` | src/os/src/flexpret_mutex.c:92-97 | after a death inside, with any events of the other threads before, between and after the two accesses, the direct path returns osError, the CSR is free again and owner is as it was |
| `MutexTheorems.WaitPathRestores` | src/os/src/flexpret_mutex.c:107-141 | any wait path overwrites the stale owner and restores the full invariant |
| `MutexTheorems.StrictStep` | src/os/src/flexpret_mutex.c:77-170 | an event ends the truthfulness of owner and count if and only if it is a cleanup's CSR write |
| `MutexTheorems.StrictRun` | src/os/src/flexpret_mutex.c:77-170 | so once restored it lasts over every run until the next such write |
| `MutexCleanup.CleanFreeExactly` | src/os/src/flexpret_threads.c:85-94 | thread_clean's CSR write keeps the lock sound if and only if nobody but the cleaned thread has the flag |
| `MutexCleanup.TerminateAgainExactly` | src/os/src/flexpret_threads.c:433-446 | terminating a thread already gone, with two more threads at rest and the CSR free or with a thread not gone: every later run keeps exclusion if and only if the mutex does not name that thread as owner, is not robust or is deleted |
| `MutexCleanup.TerminateAgainSafe` | src/os/src/flexpret_threads.c:433-446 | the safe half in every state |
| `MutexCleanup.SecondCleanupBreaksExclusion` | src/os/src/flexpret_threads.c:433-446 | a run from a fresh robust mutex, for any four threads, in which terminating one thread twice lets two others in at once |
| `MutexCleanup.RunningVictimBreaksExclusion` | src/os/src/flexpret_threads.c:101-137 | of four threads at rest, terminating one that runs on, outside a free robust mutex or once inside it, lets two others in at once, in some run |
| `MutexCleanup.TerminateExactly` | src/os/src/flexpret_threads.c:101-137 | terminating such a thread, running or stopped: every later run keeps exclusion if and only if it has been stopped |
| `MutexTheorems.ForeignKeeps` | src/os/src/flexpret_mutex.c:77-170 | whatever the other threads do between two accesses leaves a thread's own place and depth |
| `MutexCode.Board.SwapCsr` | src/os/src/flexpret_mutex.c:86 | the CSR swap is one protocol step |
| `MutexCode.Board.ReadOwner` | src/os/src/flexpret_mutex.c:100 | the owner read is one protocol step, and reads one's own name exactly when inside |
| `MutexCode.Board.WriteCount` | src/os/src/flexpret_mutex.c:89-90 | the count write is one protocol step |
| `MutexCode.Board.OsMutexAcquire` | src/os/src/flexpret_mutex.c:77-150 | the code of all four wait paths, with any interference before every access, follows the protocol: one level deeper exactly on osOK; from inside, osOK if and only if the mutex is recursive, and with timeout 0 osErrorResource if and only if it is not; a refusal means timeout 0; a time-out comes at the first look or poll at which the time is up; osErrorParameter means deleted |
| `MutexCode.Board.AcquireForever` | src/os/src/flexpret_mutex.c:107-118 | the endless wait returns only with osOK |
| `MutexCode.Board.AcquireSpinning` | src/os/src/flexpret_mutex.c:120-130 | the spinning wait returns osOK inside or osErrorTimeout unchanged, the latter at the first look at which get_time() < timeout + ctime fails in 32 bits |
| `MutexCode.Board.AcquirePolling` | src/os/src/flexpret_mutex.c:131-144 | the polling wait returns osOK inside or osErrorTimeout unchanged, the latter at the first poll at which the 32-bit sum of the periods reaches the timeout |
| `MutexCode.Board.OsMutexRelease` | src/os/src/flexpret_mutex.c:152-170 | the release code takes a thread inside one level up, refuses exactly a thread that is not inside, and fails a deleted mutex |
| `MutexCode.Board.GiveBack` | src/os/src/flexpret_mutex.c:164-169 | count, then at zero owner before the CSR |
| `Polling.GoodTimeout` | src/os/src/flexpret_mutex.c:132-142 | up to 4294960000 the 32-bit time sum first reaches the timeout at the rounded-up number of polls, less than one period late |
| `Polling.GivesUpInTimeExactly` | src/os/src/flexpret_mutex.c:132-144 | a wait that never finds the CSR free gives up within that number of polls if and only if the timeout is at most 4294960000 |
| `Polling.GivesUpEverExactly` | src/os/src/flexpret_mutex.c:132-144 | and gives up at all if and only if the timeout is at most 4294967280, the last multiple of 16 below 2^32 |
| `Polling.PollAcquire` | src/os/src/flexpret_mutex.c:131-144 | the loop itself: the number of polls, the total requested delay in [timeout, timeout + period) on osErrorTimeout, success at the first free swap |
| `Polling.GoesOnExactly` | src/os/src/flexpret_mutex.c:121-128 | while the 32-bit clock goes round once from the start, the spinning test means "before start + timeout" at a look if and only if the look and that sum lie in one round of the clock |
| `Polling.GoesOnFails` | src/os/src/flexpret_mutex.c:128 | and where it fails it goes on exactly at looks in a later round, with the time up, and stops at looks in an earlier one, before it |
| `Polling.SpinsPastItsTime` | src/os/src/flexpret_mutex.c:128 | from 0 with timeout 4294967290: looks at 4294967280 and 4294967380 both go on |
| `Polling.SpinAcquire` | src/os/src/flexpret_mutex.c:121-130 | the spinning loop itself, across the wrap: it ends at the first look that does not go on; while the clock goes round once, its time is up then, and was not at the looks before, if and only if they lie in the round of the sum |
| `ReadyQueue.Queue.Init` | tests/dev/complex-mc/t6.c:27-39 | the free list is the whole pool in order, the ready list empty, both well formed |
| `ReadyQueue.Queue.Add` | tests/dev/complex-mc/t6.c:41-71 | the record is filled in and no other record's job, priority or id changes; the ready and free lists stay acyclic, disjoint and together the pool; the ready list is the old one with the job inserted stably; the record is the first free one |
| `ReadyQueue.Queue.Search` | tests/dev/complex-mc/t6.c:55-60 | the pointer walk stops at the place of the insertion |
| `ReadyQueue.Queue.Splice` | tests/dev/complex-mc/t6.c:61-69 | the two pointer writes give the chain with the record in between |
| `ReadyQueue.Queue.Peek` | tests/dev/complex-mc/t6.c:73-75 | the head is the first ready record |
| `ReadyQueue.Queue.Pop` | tests/dev/complex-mc/t6.c:77-88 | the head record goes to the front of the free list and the rest keeps its order, all well formed |
| `ReadyQueue.PartitionAdd` | tests/dev/complex-mc/t6.c:45-52 | moving a record from the free to the ready list keeps the pool partitioned |
| `ReadyQueue.PartitionPop` | tests/dev/complex-mc/t6.c:77-82 | moving it back does too |
| `ReadyList.InsertMeaning` | tests/dev/complex-mc/t6.c:55-69 | the insertion keeps the list sorted and puts the job behind exactly the jobs not less urgent: first in, first out among equals |
| `ReadyList.InsertKeepsAll` | tests/dev/complex-mc/t6.c:61-69 | the insertion adds the one job and keeps all others |
| `ReadyList.KeptMeaning` | tests/dev/complex-mc/t6.c:41-71 | what Kept, used in the results below, says: the earlier jobs stand in their old order with only strictly more urgent newcomers before each |
| `Preemption.AdvanceKeepsInv` | tests/dev/complex-mc/t6.c:133-151 | a step of the running call keeps the invariant of the whole stack of calls and never pops an empty queue |
| `Preemption.FireKeepsInv` | tests/dev/complex-mc/t6.c:96-151 | so does a timer interrupt anywhere; a step goes wrong exactly when a batch finds too few free records |
| `PreemptionTheorems.RunKeepsInv` | tests/dev/complex-mc/t6.c:96-176 | over every run: no null is read exactly when every batch finds room, and the invariant holds |
| `PreemptionTheorems.StackOrder` | tests/dev/complex-mc/t6.c:99-151 | the jobs that the active calls preempted are all queued, in the order of the stack; the inner one is strictly more urgent if and only if some call between was preempted with its loop not over, and else they are the same job |
| `PreemptionTheorems.RunningIsUnfinished` | tests/dev/complex-mc/t6.c:141-148 | a call preempted inside a job is one of those |
| `PreemptionTheorems.RunKeepsArrival` | tests/dev/complex-mc/t6.c:55-69 | over every run, queued jobs of one priority stand in the order they came |
| `PreemptionTheorems.PopsItsOwn` | tests/dev/complex-mc/t6.c:77-88 | a call pops the job it ran, never one that any call below preempted or had in its list when it began |
| `PreemptionTheorems.HandlerReturns` | tests/dev/complex-mc/t6.c:139-151 | along every later run a handler is still active or has returned with the head it found, the calls below untouched, and the jobs it found kept in order |
| `PreemptionTheorems.PreemptedJobNext` | tests/dev/complex-mc/t6.c:139-151 | from the interrupt to the return: the preempted job is the head again and nothing more urgent is left; over an empty queue, nothing at all |
| `PreemptionTheorems.SleepsOnlyWhenDone` | tests/dev/complex-mc/t6.c:164-176 | main sleeps only while no job is queued |
| `PreemptionTheorems.WorkConserved` | tests/dev/complex-mc/t6.c:41-88 | over every run the jobs queued and the jobs popped are together exactly the jobs that arrived |
| `Schedules.TicksCycle` | tests/dev/complex-mc/t6.c:103-131 | the tick goes round 0, 1, 2, 3 through the unsigned wrap; the default case is never taken |
| `Schedules.EdfBatch` | tests/dev/complex-mc/t6.c:101-132 | each batch in numbers: C1, D1 and D3 due in 50 ms, in the first of four D2 and D4 due in 200 ms as well, the priority the low 32 bits of the deadline |
| `Schedules.RateBatch` | tests/dev/complex-mc/t5.c:100-127 | each batch of t5.c: B4 and B5 in class 0, every second one B6 in class 1, every fourth B7 in class 2 |
| `Schedules.EdfArrivalsExactly` | tests/dev/complex-mc/t6.c:101-132 | after m activations, whenever they came, C1, D1 and D3 have come m times, D2 and D4 (m + 3) / 4 times, and nothing else |
| `Schedules.RateArrivalsExactly` | tests/dev/complex-mc/t5.c:100-127 | B4 and B5 m times, B6 (m + 1) / 2 times, B7 (m + 3) / 4 times, and nothing else |
| `Schedules.StartsMostUrgent` | tests/dev/complex-mc/t6.c:141-148 | whoever starts a job starts the head: nothing queued has a smaller priority, and what has the same came later |
| `Schedules.EarliestDeadlineExactly` | tests/dev/complex-mc/t6.c:104-128 | the job started has the earliest true deadline if and only if no queued deadline lies in an earlier stretch of 2^32 ns than its own |
| `ScheduleRuns.EarliestForFourSeconds` | tests/dev/complex-mc/t6.c:104-136 | at the times the timer fires, over the first 84 activations every job started has the earliest deadline |
| `ScheduleRuns.BatchExactly` | tests/dev/complex-mc/t6.c:101-132 | activation k, at 100000 + 50000000 k ns, queues ids 0, 1 and 3 due 50000000 ns later, and ids 2 and 4 due 200000000 ns later exactly when k is divisible by 4 |
| `ScheduleRuns.ScheduledWork` | tests/dev/complex-mc/t6.c:101-176 | over every run on the timer's schedule, for every priority and id the jobs queued and the jobs ended are as many as the activations so far are to bring |
| `ScheduleRuns.WrappedDeadlineFirst` | tests/dev/complex-mc/t6.c:104-136 | the 85th activation, at 4.2001 s, reached by serving 84: a job due at 4.4001 s is started while one due at 4.2501 s waits |
| `ScheduleRuns.SameJobPreemptedTwice` | tests/dev/complex-mc/t6.c:99 | three activations on schedule, within the five records, after which two handlers hold the same current |
| `Schedules.FasterClassesFirst` | tests/dev/complex-mc/t5.c:100-126 | a job of one of the three classes starts only when no job of a faster class is queued |
| `Schedules.FullBatchNeedsIdle` | tests/dev/complex-mc/t6.c:103-109 | the first batch fits if and only if every earlier job has ended, and then no call has a job to go back to |
| `NestedHandler.Edf.AddBatch` | tests/dev/complex-mc/t6.c:101-132 | the calls of the selected case on the linked lists give the lists of the step system, keep what was queued, and move the tick round 0 to 3 |
| `NestedHandler.Edf.Selected` | tests/dev/complex-mc/t6.c:101-128 | the case selected by the tick brings ids 0, 1 and 3 with the low half of the time in 50 ms as priority, and at tick 0 ids 2 and 4 with that of the time in 200 ms |
| `NestedHandler.Edf.Interrupted` | tests/dev/complex-mc/t6.c:134-151 | a point open to any number of nested handlers: the head record is the same afterwards and no job is left half run |
| `NestedHandler.Edf.Handler` | tests/dev/complex-mc/t6.c:96-151 | the handler on the linked lists, interrupted by itself anywhere, returns with the same head record, every job it found still queued in order, its own batch queued, and every job it or a nested handler started ended |
| `NestedHandler.Edf.RunUrgent` | tests/dev/complex-mc/t6.c:139-148 | its loop ends with the preempted record at the head |
| `NestedHandler.Edf.StartHead` | tests/dev/complex-mc/t6.c:143-145 | a job is started only inside strictly less urgent ones |
| `NestedHandler.Edf.PopOwn` | tests/dev/complex-mc/t6.c:146 | the pop ends the job started last |
| `NestedHandler.Edf.RunAll` | tests/dev/complex-mc/t6.c:164-173 | main sleeps with the queue empty, and then the jobs ended are exactly the jobs that came |
| `BitBang.DutyComm` | tests/examples/duty_comm.c:17-41 | the pin trace: bit k rises at start + (k+1) * 1200 and falls 700 or 350 later, in 32 bits |
| `BitBang.PulsesDisjoint` | tests/examples/duty_comm.c:24-38 | with the end time in 32 bits and every wait less than 175 ns late, each pulse lies in its place and ends before the next begins |
| `BitBang.DutyReceived` | tests/examples/duty_comm.c:17-41 | then measuring the pulses gives back every array |
| `BitBang.PackIs` | tests/examples/duty_comm.c:24-39 | bits sent least significant first, packed again, are the words |
| `BitBang.SyncComm` | tests/examples/sync_comm.c:16-40 | the trace of both pins, in 32 bits |
| `BitBang.SyncReceived` | tests/examples/sync_comm.c:16-40 | sampling the data pin at each falling clock gives back every array, whatever the timing, with 32 pulses a word |
| `BitBang.SyncSpacing` | tests/examples/sync_comm.c:24-37 | with the end time in 32 bits clock edges are 600 apart, up to what each wait is late |
| `Duff.Duffcopy` | src/os/app/duff.c:28-52 | the unrolled copy over one memory is the plain copy of count elements, of eight when count is zero or a negative multiple of eight, of none for other negative counts |
| `Duff.Moved` | src/os/app/duff.c:31-33 | the number of elements is count if and only if count is at least one; otherwise eight for zero and the negative multiples of eight, and none for the rest |
| `Duff.ForwardMeaning` | src/os/app/duff.c:34-50 | the plain copy, blocks overlapping or not: nothing outside the target changes, and what each target element holds |
| `Stats.Untorn` | src/os/include/flexpret_io.h:73-80 | high words that agree around a low read name the value at that read |
| `Stats.OneLookTears` | src/os/include/flexpret_io.h:73-80 | without the second look the pair can be a value the counter never had |
| `Stats.StatsGet` | src/os/include/flexpret_io.h:73-80 | on exit both pairs are true counter values at the instants their low words were read, after at most one round more than the high words moved |
| `Hex.DigitsRead` | src/os/src/flexpret_io.c:22-28 | the eight digits read as n |
| `Hex.OnlyDigits` | src/os/src/flexpret_io.c:22-28 | no other numeral of the same length does |
| `Hex.ItoaHex` | src/os/src/flexpret_io.c:18-45 | the buffer holds that numeral and a terminator |
| `Hex.ShortestAndOnly` | src/os/src/flexpret_io.c:61-63 | a numeral without leading zeros is the only shortest one of its value |
| `Hex.ItoaHexRemovingLdz` | src/os/src/flexpret_io.c:48-64 | the text returned is the shortest non-empty numeral of n, and the only one that short |

## Left out

- Kernel.OsState.OsThreadNew: every attribute record is the thread's own; records shared by two threads, which would change two priorities at once, are not modelled, nor are stack, name and argument fields.
- Kernel.OsState.ThreadTerminate: thread_clean's other writes (timer deletion, stack address, state) are not part of the tables; its mutex part is MutexProtocol's.
- Kernel.OsState.Call: osThreadJoin and osThreadJoinAll wait in loops; a wait that has not ended is a call that changed nothing, and a JoinAll is its visits to the single threads; a thread joining itself is refused in the code and its visit here changes nothing because it is alive; osThreadDetach only changes a field read at a join.
- Kernel.OsState.OsKernelReset: the upper half of the mode register (0x55550000 of the constant) belongs to threads that do not exist; handlers, timers and stacks are not modelled, and mutexes have their own model. Whether startup_state[0].func is set is decided in startup.S, which is not part of this model; no theorem depends on it.
- KernelRuns.NobodyStarves: speaks of calls that run one after another; SlotRuns.NobodyStarvesInterleaved is the interleaved form. Calls of osSchedulerSetTmodes, osSchedulerSetSlotNum and osSchedulerSetSoftSlotNum by users are not among the calls, since they may starve threads on purpose.
- KernelRuns.AllSlotsReturned: thread 0 must have stayed hard, and the calls run one after another; SlotLeaks.SlotsReturnedInterleaved is the interleaved form.
- KernelLeaks.RunLeaksExactly: speaks of all times of a run; at the end alone a leak may be gone again, because the thread was terminated once more (KernelRuns.AllSlotsReturned).
- SlotLeaks.NothingLeaksInterleaved: a thread id is given out once, a creation is the only one of its thread, calls name threads whose creation is over, a terminate or join finds the mode's soft bit in agreement with the priority it read, a priority call does not name a thread whose terminate or join has begun, and no terminate or promotion counts a half-created soft thread; the three leaking runs of CreationRuns show why.
- SlotLocking.NoUpdateLost: taking and releasing slot_mutex is one event each; that the mutex excludes is MutexTheorems.AtMostOneInside, for a victim that is not terminated inside its critical section. The flexpret_thread_num increment is not in it (one thread at a time creates threads, as the source's own remark asks).
- SlotRuns.NobodyStarvesInterleaved: a thread id is given out once, a creation reads a supported priority, calls name the threads they may (a terminate one whose func it has cleared), and a demotion does not count a half-created soft thread while there is no SOFT slot; CreationRuns.DemotedThreadStarves is the run that shows why. Which hardware thread makes which call is left open.
- MutexProtocol.FireKeepsInv: count is an integer of any size, so 2^31 nested acquires do not wrap; a NULL mutex id is not an event. The copy that thread_clean takes of the structure is read in two steps (owner; ifRobust and active). A stopped victim is not resumed once its terminate has begun; a running one runs on until its cleanup is over.
- MutexTheorems.AtMostOneInside: for a robust mutex terminations must name a stopped thread or a gone one the mutex does not name; MutexCleanup.TerminateExactly and MutexCleanup.TerminateAgainExactly say that less is not enough.
- MutexCleanup.TerminateAgainExactly: says nothing while a thread that is itself gone has the CSR.
- MutexCleanup.TerminateExactly: of a thread at rest outside the mutex or inside it once, with three more at rest; other moments are not examined.
- MutexCalls.ExitExactly: of a thread that ends itself between two calls; what a terminate of another thread may free is MutexCleanup.CleanFreeExactly and MutexCleanup.TerminateExactly. That an acquire returns at all is not claimed, only what it has done when it has.
- MutexCode.Board.AcquireForever: ifSpin is not read in the endless loop, where it only chooses between waiting and not waiting; osDelay is time passing. A wait that never ends is a run that stops inside it; nothing is claimed about fairness.
- Polling.SpinAcquire: what a look means later than one whole round of the clock after the start is left open; the time is up then, whatever the test says.
- ReadyQueue.Queue.Add: a free record is required, because the code reads through avail first.
- ReadyQueue.Queue.Pop: the end-of-job messages and the exception flag are left out; the flag is why a pop is one step in Preemption.
- NestedHandler.Edf.Handler: t5.c has the same handler with constant priorities and is not written out a second time; ReadyQueue, Preemption and PreemptionTheorems hold for both. The timer fires only when its batch fits, as the code demands.
- Schedules.EarliestDeadlineExactly: holds for interrupts at any times; ScheduleRuns takes the times the timer is set to, exact and with the clock itself unbounded.
- BitBang.DutyComm: writing a pin takes no time of its own; whatever delay there is counts as the lateness of the wait before it.
- Duff.Duffcopy: count + 7 is not examined for overflow, since a block of that size does not fit in memory.
- The emulator output, traps, timers beyond "time passes", thread and kernel information calls, thread stacks.
- The statemate benchmark copies and the fixed-data benchmarks, the Python and Scala tools and the hardware itself.
