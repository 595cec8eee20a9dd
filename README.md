# xv6 process table with light-weight processes, and the pmanager shell

This project models two parts of an xv6 kernel extended with threads
(light-weight processes, "LWPs") and per-process memory limits, and proves
properties of the model in Dafny.

* **The process table** (`project2/xv6-public/proc.c`). `ptable` is an array
  of NPROC process records. Its operations scan that array in slot order
  and update records in place:
  - allocproc, userinit, growproc, fork, exit, wait, the scheduler's scan,
    yield, sleep, wakeup and kill;
  - setmemorylimit;
  - the thread operations thread_create, thread_exit and thread_join, with
    their helpers cleanThread, cleanOtherThreadsForExec and makeMainThread.

  A thread is a record that shares its main thread's pid and parent. It has
  a nonzero `tid` handed out by `nexttid++` and points at its main thread
  through `mthread`.
* **The header** (`xv6-public/proc.h`): the process states, the queue levels
  and `TIME_QUANTUM`, and the `mlfQueue` record.
* **pmanager** (`project2/xv6-public/pmanager.c`), a user-level command loop.
  - It reads lines of at most 99 characters into a 100-character buffer.
  - It recognises `list`, `kill <pid>`, `exit`, `memlim <pid> <limit>` and
    `execute <path> <stacksize>` by fixed prefixes.
  - It copies each numeric field into a zero-filled 100-character buffer,
    rejecting the line when the field holds a non-digit.

The model has three layers:

* `ProcSpec` describes each process-table operation as a function. It takes
  the table before the call to the table after it and the C return value.
* `ProcTable.Ptable` is a class over `array<Proc>` that runs the same loops
  as the C. Each method proves it computes the matching `ProcSpec` function.
* `ProcProps` states what the operations promise, in terms of those
  functions. Among the properties: scans pick the lowest matching slot, and
  exit/wait, sleep/wakeup and thread_exit/thread_join work as partners.

In `Pmanager`, `Parse` classifies a line. Methods over `array<char>` run
main's loops and prove they compute `Parse`. `Session`/`Run` model the
read loop.

Collaborators outside the table are boolean parameters saying whether
they succeeded: kalloc, copyuvm, allocuvm/deallocuvm, copyout and
setupkvm. `myproc()` is the slot index `cur`. Each operation is one atomic
step under `ptable.lock`. Operations that block run one pass of their scan;
when they would sleep, they end with the caller SLEEPING on its own slot.

## Model

| member | source | states |
|---|---|---|
| ProcHeader.StateCode | xv6-public/proc.h:35 | each `enum procstate` enumerator has the code the C compiler gives it, below 6 |
| ProcHeader.StateOfCode | xv6-public/proc.h:35 | every code 0..5 names the enumerator with that code |
| ProcHeader.StateCodeBijective | xv6-public/proc.h:35 | the six states have distinct codes; decoding a state's code gives the state back |
| ProcHeader.LevelValue | xv6-public/proc.h:36 | TOP, MIDDLE and BOTTOM are 0, 1 and 2 |
| ProcHeader.TimeQuantumPerLevel | xv6-public/proc.h:36-38 | `TIME_QUANTUM` gives 4, 6 and 8 ticks for the three levels |
| ProcHeader.ChanOfInjective | project2/xv6-public/proc.c:322 | distinct slot pointers are distinct sleep channels and no slot pointer is the null channel, so wakeup1 on a slot reaches only the sleepers that recorded that slot |
| ProcHeader.Enqueue | xv6-public/proc.h:67-76 | enqueue fails exactly when `rear` has reached NPROC, else appends the entry at the back |
| ProcHeader.Dequeue | xv6-public/proc.h:67-76 | dequeue fails exactly on an empty queue, else returns the front entry and shifts the rest forward |
| ProcHeader.QueueFifo | xv6-public/proc.h:67-76 | first in, first out: on any queue with room, enqueue then dequeue returns the old front (the new entry when the queue was empty) and leaves the rest with the new entry last |
| ProcHeader.EnqueueKeepsRunnable | xv6-public/proc.h:68 | enqueueing a RUNNABLE slot keeps "the queue holds only RUNNABLE processes" |
| ProcSpec.U32 | project2/xv6-public/proc.c:200 | `uint` arithmetic wraps modulo 2^32 and leaves values already in range alone |
| ProcSpec.InitialTable | project2/xv6-public/proc.c:11-19 | the zero-initialised table has every slot UNUSED, `nextpid` and `nexttid` at 1, and meets the table invariant |
| ProcSpec.FirstFrom | project2/xv6-public/proc.c:78-87 | a slot-order scan from `from` returns the first matching slot, none before it matching, or no slot when none matches |
| ProcSpec.FirstFromIs | project2/xv6-public/proc.c:78-87 | a matching slot with no match before it is where the scan stops |
| ProcSpec.FirstFromSameMatches | project2/xv6-public/proc.c:409-413 | the scan's result depends only on which slots match |
| ProcSpec.AllocSpec | project2/xv6-public/proc.c:98-145 | allocproc keeps the table invariant |
| ProcSpec.WakeupSpec | project2/xv6-public/proc.c:531-546 | wakeup keeps the table invariant |
| ProcSpec.UserInitSpec | project2/xv6-public/proc.c:149-182 | userinit keeps the table invariant |
| ProcSpec.GrowTarget | project2/xv6-public/proc.c:191-194 | growproc works on the caller, or on the main thread when the caller is a secondary thread |
| ProcSpec.GrowSpec | project2/xv6-public/proc.c:186-219 | growproc keeps the table invariant, sizes included as `uint`s |
| ProcSpec.ForkSpec | project2/xv6-public/proc.c:224-276 | fork keeps the table invariant |
| ProcSpec.ExitSpec | project2/xv6-public/proc.c:281-339 | exit keeps the table invariant, tids included, after cleaning threads and reparenting |
| ProcSpec.SleepSpec | project2/xv6-public/proc.c:511-512 | sleep's first half keeps the table invariant |
| ProcSpec.SleepReturnSpec | project2/xv6-public/proc.c:517 | clearing the channel on return from sleep keeps the table invariant |
| ProcSpec.WaitSpec | project2/xv6-public/proc.c:343-386 | one pass of wait keeps the table invariant |
| ProcSpec.ScheduleSpec | project2/xv6-public/proc.c:409-427 | the scheduler's choice keeps the table invariant |
| ProcSpec.YieldSpec | project2/xv6-public/proc.c:458-464 | yield keeps the table invariant |
| ProcSpec.KillSpec | project2/xv6-public/proc.c:551-570 | kill keeps the table invariant |
| ProcSpec.SetLimitSpec | project2/xv6-public/proc.c:577-612 | setmemorylimit keeps the table invariant, the stored limit a non-negative `int` |
| ProcSpec.CleanThreadSpec | project2/xv6-public/proc.c:651-662 | cleanThread keeps the table invariant |
| ProcSpec.CleanOthersSpec | project2/xv6-public/proc.c:664-697 | cleanOtherThreadsForExec keeps the table invariant |
| ProcSpec.MakeMainSpec | project2/xv6-public/proc.c:699-705 | makeMainThread keeps the table invariant |
| ProcSpec.CreateTarget | project2/xv6-public/proc.c:737-745 | thread_create's main thread is the caller's `mthread` or the caller, a slot of the table |
| ProcSpec.CreateSlotSpec | project2/xv6-public/proc.c:731-752 | thread_create's allocation keeps the table invariant and gives the new slot the tid just handed out |
| ProcSpec.ThreadCreateSpec | project2/xv6-public/proc.c:716-832 | thread_create keeps the table invariant, tid uniqueness included |
| ProcSpec.CommitSpec | project2/xv6-public/proc.c:767-831 | the stack set-up and commit of thread_create keep the table invariant |
| ProcSpec.StartSpec | project2/xv6-public/proc.c:813-825 | the commit gives both slots the grown size, makes the thread RUNNABLE and leaves every other slot alone |
| ProcSpec.ThreadExitSpec | project2/xv6-public/proc.c:840-884 | thread_exit keeps the table invariant |
| ProcSpec.JoinSpec | project2/xv6-public/proc.c:892-929 | one pass of thread_join keeps the table invariant |
| ProcSpec.TidsUniqueAfterPut | project2/xv6-public/proc.c:660 | overwriting a slot whose tid stays or becomes 0 keeps nonzero tids unique |
| ProcSpec.TidsUniqueAfterTidsCleared | project2/xv6-public/proc.c:294-300 | a table-wide update that only keeps or zeroes tids keeps them unique |
| ProcSpec.FreshTidKeepsWellFormed | project2/xv6-public/proc.c:750 | giving a slot `nexttid` and incrementing the counter keeps tids unique |
| ProcSpec.ExitKeepsWellFormed | project2/xv6-public/proc.c:294-336 | the table after exit's cleaning, wakeup, reparenting and ZOMBIE write meets the invariant |
| ProcSpec.ExitReparentSlot | project2/xv6-public/proc.c:325-333 | exit's reparenting changes a slot's parent only to initproc and its state only from SLEEPING to RUNNABLE; pid, tid, mthread, chan, killed, limit and size stay |
| ProcSpec.ExitReparentStep | project2/xv6-public/proc.c:325-333 | the loop that reparents and calls wakeup1(initproc) at each ZOMBIE child ends like reparenting everything, then waking init's sleepers once if any child was a ZOMBIE |
| ProcTable.Ptable.constructor | project2/xv6-public/proc.c:11-28 | the static table starts with every slot UNUSED and `nextpid` and `nexttid` at 1 |
| ProcTable.Ptable.FindProcessByPid | project2/xv6-public/proc.c:73-90 | returns the first slot that is not UNUSED and holds the pid, or null exactly when there is none |
| ProcTable.Ptable.AllocProc | project2/xv6-public/proc.c:98-145 | the in-place scan and slot set-up compute AllocSpec and keep the invariant |
| ProcTable.Ptable.UserInit | project2/xv6-public/proc.c:149-182 | computes UserInitSpec in place |
| ProcTable.Ptable.GrowProc | project2/xv6-public/proc.c:186-219 | computes GrowSpec in place |
| ProcTable.Ptable.Fork | project2/xv6-public/proc.c:224-276 | computes ForkSpec in place |
| ProcTable.Ptable.CleanThreadsOf | project2/xv6-public/proc.c:294-300 | the cleaning loop calls cleanThread exactly on the other threads of the pid |
| ProcTable.Ptable.PassChildrenToInit | project2/xv6-public/proc.c:325-333 | the reparenting loop computes ExitReparent in place |
| ProcTable.Ptable.Exit | project2/xv6-public/proc.c:281-339 | computes ExitSpec in place |
| ProcTable.Ptable.Sleep | project2/xv6-public/proc.c:511-512 | the caller records the channel and is SLEEPING |
| ProcTable.Ptable.SleepReturn | project2/xv6-public/proc.c:517 | the caller's channel is cleared |
| ProcTable.Ptable.Wait | project2/xv6-public/proc.c:343-386 | one pass of wait's scan computes WaitSpec in place |
| ProcTable.Ptable.ScheduleNext | project2/xv6-public/proc.c:409-427 | the scheduler's scan computes ScheduleSpec in place |
| ProcTable.Ptable.Yield | project2/xv6-public/proc.c:458-464 | the caller is RUNNABLE again |
| ProcTable.Ptable.Wakeup1 | project2/xv6-public/proc.c:531-538 | the loop wakes every slot SLEEPING on the channel and nothing else |
| ProcTable.Ptable.Wakeup | project2/xv6-public/proc.c:541-546 | computes WakeupSpec in place |
| ProcTable.Ptable.Kill | project2/xv6-public/proc.c:551-570 | computes KillSpec in place |
| ProcTable.Ptable.SetMemoryLimit | project2/xv6-public/proc.c:577-612 | computes SetLimitSpec in place, through findProcessByPid |
| ProcTable.Ptable.CleanThread | project2/xv6-public/proc.c:651-662 | the slot is recycled: UNUSED, pid 0, no parent, not killed, tid 0, no main thread |
| ProcTable.Ptable.CleanOtherThreadsForExec | project2/xv6-public/proc.c:664-697 | computes CleanOthersSpec in place |
| ProcTable.Ptable.MakeMainThread | project2/xv6-public/proc.c:699-705 | the slot becomes a main thread: tid 0, no `mthread` |
| ProcTable.Ptable.CreateSlot | project2/xv6-public/proc.c:731-752 | computes CreateSlotSpec in place |
| ProcTable.Ptable.ThreadCreate | project2/xv6-public/proc.c:716-832 | computes ThreadCreateSpec in place |
| ProcTable.Ptable.CommitThread | project2/xv6-public/proc.c:767-831 | computes CommitSpec in place |
| ProcTable.Ptable.StartThread | project2/xv6-public/proc.c:813-825 | computes StartSpec in place |
| ProcTable.Ptable.ThreadExit | project2/xv6-public/proc.c:840-884 | computes ThreadExitSpec in place |
| ProcTable.Ptable.ThreadJoin | project2/xv6-public/proc.c:892-929 | one pass of thread_join's scan computes JoinSpec in place |
| ProcProps.AllocClaimsLowestUnused | project2/xv6-public/proc.c:98-145 | allocproc claims the lowest UNUSED slot as an EMBRYO with the old `nextpid`, tid 0, no main thread and no limit; it advances `nextpid` and changes no other slot |
| ProcProps.AllocFullTable | project2/xv6-public/proc.c:104-111 | with no UNUSED slot allocproc returns 0 and changes nothing |
| ProcProps.AllocKstackFailureSkipsPid | project2/xv6-public/proc.c:113-127 | when kalloc fails the slot is UNUSED again but the pid stays used up |
| ProcProps.FindIsFirstLive | project2/xv6-public/proc.c:73-90 | findProcessByPid finds a slot exactly when a live slot holds the pid, and it is the first |
| ProcProps.GrowOnMainThread | project2/xv6-public/proc.c:186-219 | growproc returns 0 exactly when n is 0, or the growth stays within a non-zero limit and allocuvm/deallocuvm succeed; otherwise it returns -1 with no change. On success only the main thread's size changes |
| ProcProps.GrowRespectsLimit | project2/xv6-public/proc.c:197-200 | a successful growth never takes the main thread past a non-zero limit |
| ProcProps.ForkChild | project2/xv6-public/proc.c:224-276 | the child takes the lowest UNUSED slot. It is RUNNABLE, with the caller's size and limit, the caller as parent and the old `nextpid`, which fork returns. A failed copy frees the slot and returns -1 |
| ProcProps.ForkFailsIff | project2/xv6-public/proc.c:230-243 | fork returns -1 exactly when allocproc or copyuvm fails |
| ProcProps.InitCannotExit | project2/xv6-public/proc.c:287-288 | exit by initproc panics and changes nothing |
| ProcProps.ExitEffects | project2/xv6-public/proc.c:281-339 | exit recycles the caller's other threads with cleanThread. Every other slot is woken if it sleeps on the caller's parent, handed to initproc if it is the caller's child, and woken if it sleeps on initproc when a ZOMBIE child was handed over; nothing else in it changes. The caller becomes a ZOMBIE with its other fields kept, and the counters stay |
| ProcProps.ExitReparentsChildren | project2/xv6-public/proc.c:325-333 | after exit no slot has the caller as parent; its surviving children have initproc |
| ProcProps.ExitWakesWaiters | project2/xv6-public/proc.c:321-331 | a parent sleeping on its own slot, as wait leaves it, is RUNNABLE after the child's exit; so is a sleeping initproc that receives a ZOMBIE child |
| ProcProps.ExitZombieHandover | project2/xv6-public/proc.c:325-333 | exit calls wakeup1(initproc) exactly when a ZOMBIE child of the caller survives the cleanThread loop |
| ProcProps.ExitSlot | project2/xv6-public/proc.c:293-333 | a slot other than the caller's ends as cleanThread (same pid, other tid) or the parent's wakeup, then reparenting, then init's wakeup when a ZOMBIE was handed over |
| ProcProps.ExitCallerSlot | project2/xv6-public/proc.c:281-336 | exit writes only the caller's state, to ZOMBIE, and its parent, to initproc when it was its own child; pid, tid, size, kill flag, main thread and every other field stay |
| ProcProps.WaitReapsFirstZombieChild | project2/xv6-public/proc.c:354-373 | wait reaps the first ZOMBIE child in slot order and returns its pid; nothing else changes |
| ProcProps.WaitWithoutZombie | project2/xv6-public/proc.c:376-384 | with no ZOMBIE child wait returns -1 exactly when there is no child or the caller is killed, else sleeps on its own slot |
| ProcProps.ExitThenParentWaitReaps | project2/xv6-public/proc.c:281-386 | after a child exits, its parent's wait reaps a child; when no earlier slot is a ZOMBIE child of the parent and the parent is not initproc, it reaps the exited child and returns its pid |
| ProcProps.ExitKeepsOwnParent | project2/xv6-public/proc.c:325-333 | exit leaves the caller's own parent link alone |
| ProcProps.WaitReapsThreadOfChild | project2/xv6-public/proc.c:748 | a thread inherits its main thread's parent, so the grandparent's wait reaps a ZOMBIE thread; the slot keeps its tid and main-thread link |
| ProcProps.WakeupExact | project2/xv6-public/proc.c:531-538 | wakeup makes exactly the slots SLEEPING on the channel RUNNABLE and changes nothing else |
| ProcProps.WakeupIdempotent | project2/xv6-public/proc.c:531-538 | a second wakeup on the same channel changes nothing |
| ProcProps.SleepThenWakeup | project2/xv6-public/proc.c:489-546 | a process sleeping on a channel is made RUNNABLE by the next wakeup on it |
| ProcProps.SleepIgnoresOtherWakeup | project2/xv6-public/proc.c:531-538 | a wakeup on another channel leaves the sleeper asleep |
| ProcProps.KillFirstWithPid | project2/xv6-public/proc.c:551-570 | kill succeeds exactly when some slot holds the pid, UNUSED slots included. The first such slot is flagged, and woken if SLEEPING; on failure nothing changes |
| ProcProps.KillZeroPoisonsNextProcess | project2/xv6-public/proc.c:551-570 | kill(0) can flag a recycled slot, and the next process allocproc puts there starts out killed |
| ProcProps.SetLimitCases | project2/xv6-public/proc.c:577-612 | setmemorylimit fails with no change exactly when pid < 2, the limit is negative, no live slot holds the pid or the limit is below its size; else it stores the limit and returns 0 |
| ProcProps.SetLimitIdempotent | project2/xv6-public/proc.c:577-612 | setting the same limit twice is the same as once |
| ProcProps.SetLimitOnThreadMissesMain | project2/xv6-public/proc.c:585-606 | when the first live slot with the pid is a secondary thread, the limit lands on it and the main thread's limit stays |
| ProcProps.ScheduleFirstRunnable | project2/xv6-public/proc.c:409-427 | the scheduler runs the first RUNNABLE slot from its position, changing only that slot to RUNNING |
| ProcProps.YieldThenSchedule | project2/xv6-public/proc.c:409-464 | after yield, a scheduler pass starting at or before the caller's slot (a new pass starts at slot 0) runs the caller or an earlier slot: the yielding process is never skipped |
| ProcProps.ThreadCreateEffects | project2/xv6-public/proc.c:731-752 | the new thread takes the lowest UNUSED slot, with the main thread's pid and parent, `mthread` set and the id `nexttid`. `nextpid` ends unchanged and `nexttid` advances. Only the new slot and the main thread's change |
| ProcProps.CreateSlotEffects | project2/xv6-public/proc.c:731-752 | the allocation step on its own: the lowest UNUSED slot, the main thread's identity, the fresh tid |
| ProcProps.CommitCases | project2/xv6-public/proc.c:767-831 | the commit succeeds exactly when allocuvm and copyout succeed within the limit; on failure the slot is UNUSED again |
| ProcProps.ThreadCreateOutcome | project2/xv6-public/proc.c:767-831 | thread_create returns the fresh tid exactly when allocuvm and copyout succeed within a non-zero limit. Then both slots share the grown size and the thread is RUNNABLE; otherwise the slot is UNUSED and the main thread unchanged |
| ProcProps.ThreadExitEffects | project2/xv6-public/proc.c:840-884 | thread_exit stores the return value even before the initproc panic; otherwise it wakes the main thread (or the parent) and becomes a ZOMBIE |
| ProcProps.JoinReapsFirstZombie | project2/xv6-public/proc.c:903-916 | joining a ZOMBIE tid returns its retval and cleans its slot |
| ProcProps.JoinAbsentFails | project2/xv6-public/proc.c:919-924 | joining a tid no slot holds returns -1 and changes nothing |
| ProcProps.JoinWithoutZombie | project2/xv6-public/proc.c:903-927 | with no ZOMBIE holding the tid, thread_join returns -1 with no change exactly when no slot holds the tid or the caller is killed; otherwise it sleeps on its own slot |
| ProcProps.JoinTwiceFails | project2/xv6-public/proc.c:892-929 | a nonzero tid names at most one slot, so a second join of the same tid returns -1 |
| ProcProps.JoinAfterThreadExit | project2/xv6-public/proc.c:840-929 | once a thread has exited, joining its tid returns the value it passed to thread_exit |
| ProcProps.ExecFromThreadLeavesOnlyCaller | project2/xv6-public/proc.c:664-705 | after cleanOtherThreadsForExec and makeMainThread only the caller holds the pid, as a main thread |
| Pmanager.FieldEnd | project2/xv6-public/pmanager.c:77 | a field scan stops at the first ' ' or '\n' from its start, or at the end of the buffer |
| Pmanager.DigitField | project2/xv6-public/pmanager.c:77-92 | a field is accepted exactly when every character before its terminator is a digit; the accepted 100-character buffer denotes exactly those characters as a C string |
| Pmanager.ClearField | project2/xv6-public/pmanager.c:72-74 | the zero-fill loop leaves 100 NULs |
| Pmanager.ScanDigits | project2/xv6-public/pmanager.c:77-85 | the digit loop succeeds exactly when the field is all digits, stopping at its end with the digits copied in front of the NULs |
| Pmanager.CopyPath | project2/xv6-public/pmanager.c:185-190 | the path loop copies the path up to its terminator, and the NUL that ends it lands inside the array |
| Pmanager.PathNulIndexAsWritten | project2/xv6-public/pmanager.c:190 | the index the C writes execute's terminating NUL to lies between 8 and 100 |
| Pmanager.PathNulWriteOverflows | project2/xv6-public/pmanager.c:185-190 | for `execute ls` at the end of input with no newline, that index is 100, one past the array |
| Pmanager.ParseKill | project2/xv6-public/pmanager.c:66-106 | the kill branch computes KillOf |
| Pmanager.ParseMemlim | project2/xv6-public/pmanager.c:114-169 | the memlim branch computes MemlimOf |
| Pmanager.ParseExecute | project2/xv6-public/pmanager.c:171-228 | the execute branch computes ExecuteOf |
| Pmanager.ParseLine | project2/xv6-public/pmanager.c:60-232 | the if-else chain of main computes Parse |
| Pmanager.GetCmd | project2/xv6-public/pmanager.c:16-24 | the buffer holds the line followed by NULs, and -1 is returned exactly when nothing was read |
| Pmanager.Until | project2/xv6-public/pmanager.c:58-235 | the loop carries out at most one command per read |
| Pmanager.UntilTakesReadsInOrder | project2/xv6-public/pmanager.c:58 | the commands carried out are the reads in order, none of them empty |
| Pmanager.UntilExitsOnlyLast | project2/xv6-public/pmanager.c:109-112 | only the last command carried out can be exit |
| Pmanager.UntilStopsOnlyAtEmptyReadOrExit | project2/xv6-public/pmanager.c:58-112 | the loop stops early only at an empty read or right after exit |
| Pmanager.SessionRunsUntilEmptyReadOrExit | project2/xv6-public/pmanager.c:58-235 | a run parses each line on its own and stops exactly at the first empty read or after the first exit |
| Pmanager.Run | project2/xv6-public/pmanager.c:58-235 | the read loop carries out the session's commands |
| Pmanager.CStringOfDigits | project2/xv6-public/pmanager.c:95 | the zero-filled digit buffer handed to atoi denotes exactly the scanned digits |
| Pmanager.ListAndExitRecognised | project2/xv6-public/pmanager.c:61 | a line is `list` (resp. `exit`) exactly when it starts with that word followed by ' ' or '\n' |
| Pmanager.KillField | project2/xv6-public/pmanager.c:77-95 | a kill line is rejected exactly when its pid field holds a non-digit; otherwise atoi sees exactly the pid digits |
| Pmanager.KillDispatch | project2/xv6-public/pmanager.c:67 | a line starting `kill ` reaches the kill branch |
| Pmanager.MemlimDispatch | project2/xv6-public/pmanager.c:115 | a line starting `memlim ` reaches the memlim branch |
| Pmanager.ExecuteDispatch | project2/xv6-public/pmanager.c:172 | a line starting `execute ` reaches the execute branch |
| Pmanager.MemlimFields | project2/xv6-public/pmanager.c:128-159 | memlim is rejected exactly when the pid field, or the limit field after its terminator, holds a non-digit; otherwise each buffer denotes its digits |
| Pmanager.ExecuteFields | project2/xv6-public/pmanager.c:185-211 | the path is copied unchecked up to its terminator. The line is rejected exactly when the stack-size field holds a non-digit; otherwise that buffer denotes the digits |
| Pmanager.PathCopied | project2/xv6-public/pmanager.c:186-189 | the path buffer holds the path's characters, then NULs |
| Pmanager.NotFoundExactly | project2/xv6-public/pmanager.c:229-232 | "command not found" exactly for lines that start with no keyword |
| Pmanager.KillWithoutNewlineRejected | project2/xv6-public/pmanager.c:77-91 | `kill 5` at the end of input with no newline is rejected, since the NUL after the digit is neither a digit nor a terminator |

## Left out

- The spinlock, interrupts, multiple CPUs and the context switch (sched,
  swtch, forkret) are not modelled. Each operation is one atomic step under
  `ptable.lock`.
- The following are represented only by whether they succeeded, and the
  memory they manage is not modelled: the page directory, kernel stack,
  trap frame, context, open files, current directory and name, and
  kalloc, kfree, copyuvm, allocuvm, deallocuvm, copyout, setupkvm and
  clearpteu. allocuvm and deallocuvm return the requested size or 0.
- ProcSpec.GrowSpec: deallocuvm's own clamping (it returns the old size
  when the new one is not smaller) belongs to vm.c, which is not part of
  this model. A shrink below 0 therefore wraps instead of returning the
  old size.
- The new thread's user-stack pointer and arguments are not modelled. In
  thread_create, `sp` starts from the old size, not the grown one. The
  `deallocuvm` calls on its failure paths pass the new and old sizes in an
  order that frees nothing.
- The `priority` and `execTime` fields are not modelled, because proc.c
  never reads or writes them.
- The multilevel-feedback queue has no operations anywhere in the
  repository. ProcHeader.Enqueue and ProcHeader.Dequeue follow the comment
  in `struct mlfQueue`.
- procdump, showProcessList and all printing are output only. They are
  not modelled.
- pinit, cpuid, mycpu and myproc are not modelled. myproc() is the
  parameter `cur`.
- NPROC = 64 and PGSIZE = 4096 come from xv6's param.h and mmu.h, which
  are not part of this model.
- The fields `tid`, `mthread`, `mlimit`, `stackpages` and `retval` are
  declared in project2's own proc.h, which is not part of this model. They
  are taken from their use in proc.c.
- wait and thread_join are modelled one scan at a time. A pass ends in a
  result, in -1, or with the caller SLEEPING; the sleep-and-rescan loop
  around it is not modelled.
- pmanager: atoi and gets (ulib.c) are not part of this model.
  - A command carries the zero-filled buffers that would be passed to
    atoi.
  - A line is given as the characters gets stores (at most 99).
- The syscalls pmanager makes are not modelled: kill, setmemorylimit,
  fork1, exec2 and exit. fork1 panics, ending pmanager, when fork fails;
  fork's outcome is not an input of the model.
- `nextpid` and `nexttid` are C `int`s whose `++` would overflow (undefined
  behaviour) after 2^31 allocations; the model's counters are unbounded
  integers and do not capture that.
- `retval` is a `void *` in the C; the model carries it as an integer and
  does not capture pointer width or provenance.
- The descriptor-opening loop at the top of pmanager's main is not
  modelled.
- Pmanager.ScanDigits, Pmanager.CopyPath: the C tests `buf[idx]` before
  `idx < 100`, so a scan reaching the end of the buffer first reads one
  character past it. When memlim's or execute's first field runs to index
  100, `idx++` starts the second scan at 101, so the C reads up to two
  characters past the buffer. The model tests the bound first; the extra read has no
  effect on the result.

## Findings

| source | as written | input that shows it | evidently intended | confidence | as-written member | corrected member |
|---|---|---|---|---|---|---|
| project2/xv6-public/pmanager.c:190 | `strPath[idx] = 0` uses the buffer index `idx`, not the path index `idx - 8`. When the path runs to the end of the 100-character line, this writes `strPath[100]`, past the array | the last input line `execute ls` with no trailing newline. gets leaves NULs after it, and NUL is not a terminator, so the loop ends at `idx == 100` | `strPath[idx - 8] = 0`, right after the copied characters, always inside the array | not executed | Pmanager.PathNulIndexAsWritten, Pmanager.PathNulWriteOverflows | Pmanager.CopyPath |
