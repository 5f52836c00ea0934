# Verified model of ccthread's synchronisation logic

This project models, in Dafny 4.11, those parts of ccthread whose safety under concurrency rests on the library's own
steps, and proves what they are for.  `dafny verify dfyconfig.toml` checks everything.

Each component is a state machine with one transition per access to shared state, and any number of threads.  `Next`
is the specification of one step, total: an action that is not enabled changes nothing.  `Exec` is a run, so "for all
action sequences" means every interleaving.  Beside it stands a class with the source's own cells, one method per
access, each proved to make exactly the specified step and to keep the invariant; its `Run` takes an arbitrary
schedule.  The theorems are about all runs.  What a call asked for and what it came back with are read off the actions
and the moves of the run, so the laws about calls do not lean on what the machine has recorded.

| module | models |
|---|---|
| `Once` | `ccthread_once` under sequential consistency: exactly once, not early, termination |
| `OnceWeakMemory` | the same code under release/acquire: visibility of the initialisation |
| `Semaphore`, `Deadline` | the POSIX semaphore with barging, spurious wakeups and timeouts; the deadline arithmetic |
| `Timeouts` | what a TIMEOUT says about the count, and when it is certain to say it |
| `SpinLock`, `SpinLockProgram` | the recursive spinlock with its unlocked owner check under release/acquire; its functions as structured programs |
| `SharedCounter` | the counter that the spinlock protects |
| `ThreadHandle` | join, detach and the reclamation handshake, with store buffers |
| `CondQueue` | the bounded queue over a mutex and two condition variables |
| `RingBuffer` | the two-semaphore buffer without a lock |
| `RwLock` | the Windows read-write lock that infers its mode at unlock |
| `Tally`, `Threads`, `Memory`, `Ring` | sums over threads, ids and holders, modification orders, positions in a circular buffer |

## Assumptions

- Thread ids are non-zero (ccthread.h:229) and distinct among live threads.  The machines have one slot per id: a later
  thread that is given the id of an exited one goes on in its slot, having seen at least what its predecessor had.
- pthread calls return 0, except ETIMEDOUT; a waiter that times out takes no signal with it.
- `func` takes finitely many steps and does not re-enter its own once block (ccthread.h:303).
- Lock users unlock only what they hold (ccmutex.h:174, ccmutex.h:252) and nest less than INT_MAX deep.
- Each handle is consumed by exactly one join or detach (ccthread.h:95-96).
- Atomics follow the `__atomic` branch of ccatomic.h (33-35, 67-69, 99-101); ordering terms are those of sections
  5.1.2.4 and 7.17.3 of ISO/IEC 9899:2011.  `Once`, `CondQueue`, `RingBuffer` and `RwLock` are sequentially
  consistent; `OnceWeakMemory` is release/acquire; `SpinLock` is release/acquire in `flag` and relaxed in `owner_tid`;
  `ThreadHandle` has store buffers for the two flag stores.
- Integers without a stated bound are unbounded; the semaphore's count wraps at 2^32 as `unsigned int` does.

## Where the code and its documentation differ

The model follows the code.

- ccsem.h:112 says that TIMEOUT means the count was 0 for the whole interval.  The code does not test the count after
  ETIMEDOUT: in `Timeouts.TimeoutThoughUnitAvailable` a unit is there from the start of the interval and TIMEOUT is
  reported.  `Timeouts.PromiseKeptIffNoPost` says which runs keep the promise, `Timeouts.PromiseCertainIff` in which
  states it is certain to be kept: those in which nobody else can be out of the semaphore before the deadline.
- ccthread.c:294-296 and ccthread.c:318-320 say that exactly one side frees the handle.  That needs each side's flag to
  be visible before the side looks at the other's; a release store followed by an acquire load does not give it.
  Of the code as written, `ThreadHandle.DetachReclaimedIff` says which detaches are certain to be reclaimed (those
  called when the thread has visibly finished), `ThreadHandle.FinishReclaimedIff` which endings are,
  `ThreadHandle.UnfencedLeaks` gives runs that leak, and `ThreadHandle.ReclaimedExactlyOnceIffFenced` the condition on
  the build.  No machine frees twice.
- ccspinlock.c:10 says that PLAIN mode ignores the owner, and ccmutex.h:163 that trylock fails when the lock is held.
  The code ignores the type and lets the holder in again: `SpinLock.PlainLockReenters` is such a run,
  `SpinLock.HolderTrylockSucceeds` says that it is always so, and `SpinLock.BusyMeansHeldByAnother` when trylock fails;
  under release/acquire it may also miss a release and fail on a free lock (`SpinLock.TrylockMissesRelease`).

## Model

| member | source | states |
|---|---|---|
| `Once.ExactlyOnceNotEarly` | ccthread.c:469-497 | any number of callers, any interleaving, counting the moves of the run: func is entered at most once, and by the time a caller has returned it has been entered once and left once with all its steps in between; the cell is 1 iff some caller owes the store of 2, and that caller is unique |
| `Once.EachCallerRunsTheProgram` | ccthread.c:476-495 | on every run each caller's accesses, with the values read and written, are those of the source's loop written as a structured program, to its end iff the caller has returned |
| `Once.NeverFreshAgain` | ccthread.c:476-494 | once the cell has left 0 it never comes back to 0, on any continuation of any run |
| `Once.TokenUnique` | ccthread.c:477-493 | a caller between its exchange and its store of 2 is the only such caller and sees the cell at 1 |
| `Once.EveryCallerReturns` | ccthread.c:476-494 | all n callers have returned within (n + 1)(n + work + 6) rounds of any schedule, although late callers keep resetting the cell from 2 to 1 |
| `Once.FairTermination` | ccthread.c:476-494 | under every fair infinite schedule there is a moment by which every caller has returned |
| `Once.MeasureStep` | ccthread.c:476-494 | no step raises the progress measure; a helpful step (the token holder's when the cell is 1, anybody's otherwise) lowers it |
| `Once.OnceBlock.constructor` | ccthread.h:306-309 | a fresh control block is the initial state of the step machine |
| `Once.OnceBlock.LoadGuard` | ccthread.c:476 | the loop guard: goes on below 2, returns at 2; invariant kept, nothing else changes |
| `Once.OnceBlock.ExchangeOne` | ccthread.c:477-490 | the exchange and its three outcomes (restore, retry, win); invariant kept |
| `Once.OnceBlock.RestoreDone` | ccthread.c:479-483 | puts the overwritten 2 back and leaves the loop; invariant kept |
| `Once.OnceBlock.EnterFunc` | ccthread.c:491-492 | the winner enters func: the start counter goes up by one and never beyond one |
| `Once.OnceBlock.StepFunc` | ccthread.c:492 | a step of func, or its completion, which is counted once |
| `Once.OnceBlock.StoreDone` | ccthread.c:493-494 | the winner stores 2 and returns to the guard; invariant kept |
| `Once.OnceBlock.Run` | ccthread.c:469-497 | any schedule of the callers computes exactly the specified run and keeps the invariant |
| `OnceWeakMemory.ReturnedSeesInitialisation` | ccthread.c:476-494 | under release/acquire with stale loads: func is entered at most once, and by the time a caller has returned it has been entered and left once with all its steps, and the caller is guaranteed to see all writes of func, through any chain of overwrite-and-restore callers |
| `OnceWeakMemory.SeesOnlyWritten` | ccthread.c:476-494 | no caller is ever said to see a write that func has not made |
| `OnceWeakMemory.EachCallerRunsTheProgram` | ccthread.c:476-495 | with possibly stale values read, too, each caller's accesses are those of the source's loop |
| `OnceWeakMemory.CallersCanLagBehind` | ccthread.c:476-490 | a run in which a caller loads the 0 from before the winner and its exchange is placed before the 2, so it goes round again: the staleness is really there |
| `OnceWeakMemory.ExchangeNeedsNoRelease` | ccatomic.h:99-101 | wherever an exchange goes, the message it reads already carries all its caller has seen: acquire is enough for it |
| `OnceWeakMemory.StoreGoesLast` | ccthread.c:480-493 | the store of 2 by the obliged caller can only be placed at the end of the modification order |
| `OnceWeakMemory.StaleExchangeReadsOne` | ccthread.c:477-489 | an exchange that is not placed last has read a 1 and only retries |
| `OnceWeakMemory.SequentialRunsAreWeakRuns` | ccatomic.h:33-35 | every sequentially consistent run of Once is a run of the release/acquire machine |
| `OnceWeakMemory.ExchangeInv` | ccatomic.h:99-101 | an acquire exchange, placed anywhere coherence allows, keeps the invariant of the modification order and of every caller |
| `Deadline.DeadlineAfter` | ccsem.c:246-253 | normalised, equal to now plus exactly timeout_ms * 10^6 ns, with one carry at most; the nanosecond field stays below 2^31 on the way |
| `Deadline.DeadlineMonotone` | ccsem.c:246-253 | a later clock or a longer timeout never gives an earlier deadline |
| `Semaphore.RefinesAtomicSemaphore` | ccsem.c:147-307 | every run is explained by an atomic counting semaphore: all operations in the order they took effect are legal answers, they end at the stored count, and each thread was told exactly its own outcomes in order |
| `Semaphore.NoLostWakeup` | ccsem.c:156-166 | with the mutex free and somebody asleep, count is at most the number of woken waiters still to take the mutex; with all threads idle or asleep it is 0 |
| `Semaphore.CountConserved` | ccsem.c:123 | count equals initial + posts - successful waits modulo 2^32, exactly when it does not wrap; failures leave it alone |
| `Semaphore.TimeoutOnTime` | ccsem.c:245-260 | a timedwait that reports TIMEOUT was called as one, and at least the timeout_ms of that call have passed on the clock since that call; none sleeps towards a time earlier than that, or more than timeout_ms ahead of the clock |
| `Semaphore.CallsAnswered` | ccsem.h:81-115 | on every run the operations a thread has called, with their timeouts, are in order those it has been answered and the one it is in |
| `Semaphore.OperationsSettle` | ccsem.c:147-307 | from every state of every run, without new calls or timeouts: at most 8 moves a thread, one possible until all are idle or asleep, and then nobody sleeps unless count is 0; so a waiter with a unit there returns |
| `Semaphore.SpuriousWakeupReturnsToSleep` | ccsem.c:156-162 | a spurious wakeup at count 0 makes its thread test again, and leaves everything as it was |
| `Timeouts.TimeoutThoughUnitAvailable` | ccsem.h:112 | a run in which a 1 ms timedwait reports TIMEOUT although the count has been 1 from clock 0 on: the documented meaning of TIMEOUT does not hold of the code |
| `Timeouts.PromiseKeptIffNoPost` | ccsem.c:245-260 | exactly when one run keeps the documented meaning: for every timedwait that reports TIMEOUT, the clock reached its deadline, and the count was 0 until then iff no post took effect until then; likewise for every prefix up to the report |
| `Timeouts.PromiseCertainIff` | ccsem.c:245-260 | exactly when the documented meaning is certain, decided at the clock reading: every continuation to TIMEOUT (there is one) keeps the count at 0 until the deadline iff the timeout is 0 or every other thread waits without a limit or with one no earlier; otherwise a run is built in which a unit was there and gone |
| `Timeouts.ZeroUpToReportIff` | ccsem.c:255-260 | up to the report, with its wait for the mutex: the count is certain to be 0 iff every other thread is inside ccsem_wait |
| `Semaphore.MoveInv` | ccsem.c:151-166 | a step that touches the mutex only free or own, the count only under the mutex, and drops no responsibility for a unit still there, keeps the invariant for every thread |
| `Semaphore.Sem.constructor` | ccsem.c:101-124 | ccsem_create: count starts at initial_count, nobody asleep, mutex free |
| `Semaphore.Sem.Begin` | ccsem.h:81-115 | an idle thread enters one of the four operations and its interval starts at the current clock |
| `Semaphore.Sem.LockMutex` | ccsem.c:151-154 | takes the mutex only when it is free and goes on to the operation's first test |
| `Semaphore.Sem.FirstTest` | ccsem.c:239-243 | timedwait decrements without reading the clock when count > 0 |
| `Semaphore.Sem.ReadClock` | ccsem.c:245-253 | timedwait fixes its absolute deadline |
| `Semaphore.Sem.TestCount` | ccsem.c:156 | the loop guard: decrement, sleep, or trywait's TIMEOUT |
| `Semaphore.Sem.CondWait` | ccsem.c:157 | gives up the mutex and sleeps in one step; no wakeup is lost |
| `Semaphore.Sem.WakeSpuriously` | ccsem.c:156-162 | a spurious wakeup leads back to the mutex |
| `Semaphore.Sem.DeadlineReached` | ccsem.c:256 | only a sleeper whose deadline has passed times out, taking no signal |
| `Semaphore.Sem.Reacquire` | ccsem.c:255-260 | takes the free mutex again; ETIMEDOUT returns TIMEOUT without testing count again |
| `Semaphore.Sem.Decrement` | ccsem.c:164 | never happens at 0; lowers count by exactly one |
| `Semaphore.Sem.Increment` | ccsem.c:301 | raises count by one modulo 2^32 |
| `Semaphore.Sem.CondSignal` | ccsem.c:303 | wakes one sleeper of the condition variable's choice, none only if nobody sleeps |
| `Semaphore.Sem.UnlockMutex` | ccsem.c:165-166 | releases the mutex and reports the recorded outcome |
| `Semaphore.Sem.Run` | ccsem.c:134-309 | any interleaving of threads, wakeups and clock computes exactly the specified run and keeps the invariant |
| `SpinLock.OwnerCheckExact` | ccspinlock.c:54-57 | whatever possibly stale entry of owner_tid the unlocked check reads, it is the caller's id iff the caller holds the lock |
| `SpinLock.BusyMeansHeldByAnother` | ccspinlock.c:48-67 | trylock reports Busy only at its exchange, and iff that lands in another thread's tenure of the lock: one that goes on if the exchange reads the latest write, else one whose release it is placed before; it acquires iff it goes last and the lock is free; the holder never reaches the exchange |
| `SpinLock.CallsAnswered` | ccspinlock.c:48-103 | on every run, in order, each lock comes back having acquired, each trylock having acquired or been refused, each unlock having released, and only the last call may be under way |
| `SpinLock.CallAloneSucceeds` | ccspinlock.c:48-103 | from every state of every run with the lock free or the caller's: a call left alone is through in four accesses, lock and trylock with SUCCESS one level deeper, unlock one level less, freeing the lock at the last |
| `SpinLockProgram.EachThreadRunsThePrograms` | ccspinlock.c:48-103 | on every run each thread's accesses to owner_tid, flag and recursion, with the values read and written, are those of its calls' functions written as structured programs |
| `SpinLock.ExchangeReads` | ccspinlock.c:60 | wherever release/acquire coherence lets an exchange of a thread without the lock go, it reads 0 iff the lock is free and it goes last, and any 1 it reads was written in another thread's tenure |
| `SpinLock.ReleaseGoesLast` | ccspinlock.c:101 | the holder's store of 0 can only go last in the modification order of flag |
| `SpinLock.TrylockMissesRelease` | ccmutex.h:163 | a run in which trylock reports busy although the lock has been released and nobody holds it: the exchange has missed the release |
| `SpinLock.HolderTrylockSucceeds` | ccspinlock.c:53-57 | a whole trylock begun by the holder reports SUCCESS, for either type at creation and any interleaving |
| `SpinLock.PlainLockReenters` | ccmutex.h:163 | a run on a PLAIN lock in which the holder's trylock succeeds and the depth is 2: trylock does not fail on a lock that is already held |
| `SpinLock.OutcomeIsTrue` | ccspinlock.c:53-81 | on return from lock or trylock, SUCCESS iff the caller now holds the lock |
| `SpinLock.RefinesAtomicLock` | ccspinlock.c:48-103 | every run is a legal run of an atomic recursive lock in which each thread's part is exactly its returned calls in order (one acquisition per SUCCESS, none per busy trylock, one release per unlock) plus at most the one about to return; the latest write to flag mirrors the lock always, recursion equals its depth between the holder's calls, and recursion++ never overflows |
| `SpinLock.DepthAccounting` | ccspinlock.c:48-103 | returned SUCCESS acquisitions minus returned unlocks of a thread is its depth, less one while a call that has got the lock is about to return; exactly the depth between calls, never negative |
| `SpinLock.MutualExclusion` | ccspinlock.c:60-65 | two threads never both have more returned acquisitions than unlocks; while one has, the latest write to flag is a 1; while it is, its owner has acquired more than it released |
| `SpinLock.OwnerWriteGoesLast` | ccspinlock.c:97-101 | because flag is released and acquired, the holder's write of owner_tid can only go last in the modification order |
| `SpinLock.ReturnedAreEffects` | ccspinlock.c:53-102 | over any run, the effects of a thread on the atomic lock are its returned calls, in order, up to the one call that has taken effect and not returned |
| `SpinLock.Spin.constructor` | ccspinlock.c:30-42 | flag clear, owner 0, recursion 0, the same state for both types |
| `SpinLock.Spin.BeginAcquire` | ccspinlock.c:73-77 | lock and trylock enter the same code, with and without retry |
| `SpinLock.Spin.BeginRelease` | ccspinlock.c:87-90 | unlock, by a thread that holds the lock |
| `SpinLock.Spin.TestOwner` | ccspinlock.c:54 | first read of owner_tid: any entry not before what the thread has seen |
| `SpinLock.Spin.CompareOwner` | ccspinlock.c:54 | second read of owner_tid: takes the recursive path iff the caller holds the lock |
| `SpinLock.Spin.ReadRecursion` | ccspinlock.c:55 | the read half of recursion++ (and of recursion--) |
| `SpinLock.Spin.IncrementRecursion` | ccspinlock.c:55-56 | the write half: exactly one more, within int |
| `SpinLock.Spin.ExchangeFlag` | ccspinlock.c:60-66 | placed anywhere after what the thread has seen and not behind an exchange's back: acquires iff it goes last and the lock is free, reports busy or retries otherwise, and takes over what the release it follows had seen |
| `SpinLock.Spin.WriteOwnerTid` | ccspinlock.c:61 | the owner write (also the clearing at unlock) lands last in the modification order |
| `SpinLock.Spin.SetRecursion` | ccspinlock.c:62-63 | recursion = 1 completes the acquisition |
| `SpinLock.Spin.TestRecursion` | ccspinlock.c:92 | inner or outermost release |
| `SpinLock.Spin.DecrementRecursion` | ccspinlock.c:93-94 | an inner release: exactly one less, still held |
| `SpinLock.Spin.ClearRecursion` | ccspinlock.c:98 | recursion = 0 before the release |
| `SpinLock.Spin.ReleaseFlag` | ccspinlock.c:101-102 | the outermost release frees the lock and hands over the order of owner_tid |
| `SpinLock.Spin.Run` | ccspinlock.c:48-103 | any interleaving of calls and steps computes exactly the specified run and keeps the invariant |
| `SharedCounter.NoIncrementLost` | examples/ccspinlock_basic.c:16-25 | N workers of K rounds with the increment split in two: the counter is always the number of writes made, at most N * K, exactly N * K when all have finished; a worker at its read or write holds the lock, and only one is between them |
| `SharedCounter.LockIsNeeded` | examples/ccspinlock_basic.c:20 | two workers put between read and write at once, as no run does, add one with two writes |
| `SharedCounter.WorkersCanFinish` | examples/ccspinlock_basic.c:16-25 | from every state of every run, whatever stale entries were read, there is a way on which all workers finish, and there the counter is N * K |
| `SharedCounter.LockFrame` | ccspinlock.c:48-103 | what a step of the lock by one thread leaves alone for all others |
| `SharedCounter.Workers.StepWorker` | examples/ccspinlock_basic.c:18-22 | the worker loop over the real lock object, one access at a time |
| `SharedCounter.Workers.Run` | examples/ccspinlock_basic.c:42-52 | any interleaving of the workers computes exactly the specified run |
| `ThreadHandle.DetachReclaimedIff` | ccthread.c:272-304 | from every state of every run with the handle not yet consumed: a detach called now leads to exactly one free on all continuations iff the store of finished is already visible (or both sides are fenced, which the code is not) |
| `ThreadHandle.FinishReclaimedIff` | ccthread.c:145-163 | when the function ends: exactly one free on all continuations iff detached is already visible or a join has begun (or both sides are fenced) |
| `ThreadHandle.ReclaimedIffSafe` | ccthread.c:149-163 | from every state of every run, all continuations free exactly once iff the state is safe: a join has begun, or one side is certain to see the other's flag |
| `ThreadHandle.ReclaimedExactlyOnceIffFenced` | ccthread.c:149-152 | about builds: every finished and consumed handle is freed exactly once on all runs iff both sides commit their flag store before loading the other's flag |
| `ThreadHandle.UnfencedLeaks` | ccthread.c:292-301 | for each missing fence, a run in which both sides finish and nobody frees the handle |
| `ThreadHandle.NeverFreedTwice` | ccthread.c:153-163 | fenced or not, at most one free, never two winners of cleanup_claimed, and a handle consumed once is never rejected |
| `ThreadHandle.JoinDeliversResult` | ccthread.c:233-266 | join returns the value with which the function first ended (return or ccthread_exit, read off the actions), after the thread has exited; a join ends only as a join and a detach only as a detach; the finishing side does not reclaim and the join's free is the only one |
| `ThreadHandle.BothSidesCanFinish` | ccthread.c:233-332 | from every state of every run there is a way on which the function ends and the join or detach returns |
| `ThreadHandle.ConsumedHandleRefused` | ccthread.c:234-240 | from any state: a join or detach that sees detached or joined set is refused and changes nothing, any other gets past the guards with nothing changed |
| `ThreadHandle.AllocationsEqualFrees` | ccthread.c:184-226 | n handles, each finished and consumed once, in any interleaving under sequential consistency: n frees |
| `ThreadHandle.Handle.constructor` | ccthread.c:184-195 | a new handle: no flag set, nothing freed |
| `ThreadHandle.Handle.EndFunction` | ccthread.c:145-146 | the function ends with a value, by returning it or through ccthread_exit, and that value is the one to be stored |
| `ThreadHandle.Handle.StoreResult` | ccthread.c:148-150 | stores the result, then executes the store of finished, which stays buffered until committed |
| `ThreadHandle.Handle.LoadDetached` | ccthread.c:152 | the finishing side goes on to claim iff it sees detached set, and exits otherwise; with its fence it waits for its own store to be visible |
| `ThreadHandle.Handle.ClaimAsThread` | ccthread.c:156 | the exchange sets cleanup_claimed and lets the finishing side free iff it was clear; it also makes finished visible |
| `ThreadHandle.Handle.FreeAsThread` | ccthread.c:162 | is the first and only free |
| `ThreadHandle.Handle.TestGuards` | ccthread.c:234-237 | the entry guards of join and detach never reject a handle consumed once |
| `ThreadHandle.Handle.StepJoin` | ccthread.c:252-265 | wait, copy result, set joined, free: delivers the outcome with the only free |
| `ThreadHandle.Handle.StoreDetached` | ccthread.c:284-292 | detach executes its store of detached, which stays buffered until committed |
| `ThreadHandle.Handle.LoadFinished` | ccthread.c:297 | the detaching side goes on to claim iff it sees finished set, and returns otherwise; with its fence it waits for its own store to be visible |
| `ThreadHandle.Handle.ClaimAsConsumer` | ccthread.c:298 | the exchange sets cleanup_claimed and lets the detaching side free iff it was clear; it also makes detached visible |
| `ThreadHandle.Handle.FreeAsConsumer` | ccthread.c:299 | is the first and only free |
| `ThreadHandle.Handle.Run` | ccthread.c:313-332 | any interleaving of the two sides and their store buffers computes exactly the specified run and keeps the invariant |
| `CondQueue.FifoRefinement` | examples/cccondvar_basic.c:52-76 | popped items are a prefix of pushed items, both as many as the iterations say; with the mutex free, buf read from head for count places is pushes minus pops in order and tail is count places after head |
| `CondQueue.ProducerOrderKept` | examples/cccondvar_basic.c:87-96 | a producer's items enter the queue as id * 100, id * 100 + 1, ..., one for each iteration completed and the one under way once it is in, all its items when it has finished; consumers put nothing in |
| `CondQueue.ConsumersGetThePopped` | examples/cccondvar_basic.c:67-77 | the items with which queue_pop returns, over all consumers in order of return, are those taken out of the queue but for one not yet handed over: a prefix of the items put in |
| `CondQueue.SpuriousWakeupReturnsToSleep` | examples/cccondvar_basic.c:54-55 | a spurious wakeup with nothing to do makes its thread test again, and leaves everything as it was |
| `CondQueue.NoLostWakeup` | examples/cccondvar_basic.c:54-73 | sleeping consumers imply count <= woken consumers, sleeping producers imply capacity - count <= woken producers; so the two kinds are never all asleep together |
| `CondQueue.RunsToCompletion` | examples/cccondvar_basic.c:87-106 | any threads, capacity and item counts with matching totals: until all have finished somebody can move without a spurious wakeup, every run has at most 14 moves an item, 13 a thread and 4 a spurious wakeup, the end can always be reached, and there everything produced was consumed in order |
| `CondQueue.RunBounded` | examples/cccondvar_basic.c:52-76 | every move takes from a finite load, a wakeup by signal included: each sleep is paid for by a signal and each signal by a push or pop |
| `CondQueue.NeverStuck` | examples/cccondvar_basic.c:52-76 | in every state of the invariant that is not finished, some thread is enabled |
| `CondQueue.Queue.constructor` | examples/cccondvar_basic.c:29-43 | an empty queue and its threads |
| `CondQueue.Queue.NextIteration` | examples/cccondvar_basic.c:89-91 | the for loop and the item of the iteration |
| `CondQueue.Queue.TakeMutex` | examples/cccondvar_basic.c:53 | takes the mutex only when free |
| `CondQueue.Queue.TestCount` | examples/cccondvar_basic.c:54 | the wait loops' conditions, full for producers and empty for consumers |
| `CondQueue.Queue.CondWait` | examples/cccondvar_basic.c:55 | gives up the mutex and sleeps in one step; no wakeup is lost |
| `CondQueue.Queue.CopyItem` | examples/cccondvar_basic.c:57 | writes the item at tail, or reads the oldest unpopped item at head |
| `CondQueue.Queue.AdvanceIndex` | examples/cccondvar_basic.c:58 | tail or head moves on modulo the capacity |
| `CondQueue.Queue.MoveCount` | examples/cccondvar_basic.c:59 | count moves by exactly one, never above the capacity and never below 0 |
| `CondQueue.Queue.CondSignal` | examples/cccondvar_basic.c:60 | wakes one sleeper of the other kind, none only if none sleeps |
| `CondQueue.Queue.Unlock` | examples/cccondvar_basic.c:61 | releases the mutex and ends the iteration |
| `CondQueue.Queue.Run` | examples/cccondvar_basic.c:52-106 | any interleaving of threads and wakeups computes exactly the specified run and keeps the invariant |
| `RingBuffer.ConsumedIsPrefixOfProduced` | examples/ccsem_producer_consumer.c:27-58 | consumed items are always a prefix of the produced ones, which are id * 100, id * 100 + 1, ...; no unread slot is overwritten and no slot is read and written at the same time |
| `RingBuffer.SemaphoresAreNeeded` | examples/ccsem_producer_consumer.c:32-54 | both threads put at one slot at once, as no run does: the consumer gets the new item or the old content, whoever is first |
| `RingBuffer.SlotsConserved` | examples/ccsem_producer_consumer.c:63-64 | free slots + ready items + slots in hand equals the capacity |
| `RingBuffer.NeverBothBlocked` | examples/ccsem_producer_consumer.c:32-54 | the two threads never block together nor is one left blocked by the other's end; at the end all items are consumed and all slots free |
| `RingBuffer.EveryRunEnds` | examples/ccsem_producer_consumer.c:27-58 | a run in which every action moves has at most 10 * items + 2 actions, and exactly that many iff both threads have finished |
| `RingBuffer.ProducerConsumer.constructor` | examples/ccsem_producer_consumer.c:60-64 | all slots free, no item ready |
| `RingBuffer.ProducerConsumer.WaitEmpty` | examples/ccsem_producer_consumer.c:32 | blocks at 0, takes one free slot otherwise |
| `RingBuffer.ProducerConsumer.WriteSlot` | examples/ccsem_producer_consumer.c:34 | writes the item of this iteration at g_in |
| `RingBuffer.ProducerConsumer.AdvanceIn` | examples/ccsem_producer_consumer.c:35 | g_in moves on modulo the capacity |
| `RingBuffer.ProducerConsumer.PostFilled` | examples/ccsem_producer_consumer.c:38 | one more item ready, without wrapping |
| `RingBuffer.ProducerConsumer.WaitFilled` | examples/ccsem_producer_consumer.c:48 | blocks at 0, takes one ready item otherwise |
| `RingBuffer.ProducerConsumer.ReadSlot` | examples/ccsem_producer_consumer.c:50 | reads the oldest unread item at g_out |
| `RingBuffer.ProducerConsumer.AdvanceOut` | examples/ccsem_producer_consumer.c:51 | g_out moves on modulo the capacity |
| `RingBuffer.ProducerConsumer.PostEmpty` | examples/ccsem_producer_consumer.c:54 | one more free slot, without wrapping |
| `RingBuffer.ProducerConsumer.Run` | examples/ccsem_producer_consumer.c:27-58 | any interleaving of the two threads computes exactly the specified run and keeps the invariant |
| `RwLock.UnlockReleasesTheRightMode` | ccrwlock.c:164-174 | on every run the native lock is never misused: shared release only by a shared holder, exclusive only by the exclusive holder; a shared hold means writer_tid is 0; between calls writer_tid is a thread's id iff it holds exclusively |
| `RwLock.UnlockGivesBackHold` | ccrwlock.c:159-182 | whatever other threads do meanwhile, a whole unlock gives back one shared hold if its caller had any, the exclusive hold otherwise |
| `RwLock.AcquisitionOutcomeIsTrue` | ccrwlock.c:77-152 | whatever other threads do meanwhile: rdlock, tryrdlock, wrlock, trywrlock return SUCCESS iff the caller's hold has grown by exactly one in the mode asked for, a writer's id being recorded; ERROR only from a try form, with the hold as before |
| `RwLock.GrantedSucceeds` | ccrwlock.c:77-152 | from every state of every run: an acquisition that the native lock grants succeeds and changes only the caller's hold; a refused try form returns ERROR with nothing changed; a refused blocking form waits |
| `RwLock.HoldsAreAccounted` | ccrwlock.c:77-182 | on every run a thread holds the lock as many times as its acquisitions have returned SUCCESS less its returned unlocks |
| `RwLock.UnlockInfersMode` | ccrwlock.c:164-174 | from any state and for any caller: unlock gives back the exclusive mode and clears writer_tid iff writer_tid is the caller's id, else one shared hold with writer_tid left alone |
| `RwLock.UnlockUndoesAcquisition` | ccrwlock.c:164-174 | without other threads in between, unlock changes nothing else in the lock and leaves writer_tid 0 |
| `RwLock.RwLockHandle.constructor` | ccrwlock.c:49-59 | nobody holds the lock, writer_tid is 0 |
| `RwLock.RwLockHandle.AcquireShared` | ccrwlock.c:83 | shared is granted only without a writer; the try form may be refused |
| `RwLock.RwLockHandle.AcquireExclusive` | ccrwlock.c:123 | exclusive is granted only when nobody holds the lock; the try form may be refused |
| `RwLock.RwLockHandle.SetWriter` | ccrwlock.c:124 | the exclusive holder records its id |
| `RwLock.RwLockHandle.TestWriter` | ccrwlock.c:169 | chooses the shared release iff the caller holds in shared mode |
| `RwLock.RwLockHandle.ClearWriter` | ccrwlock.c:170 | clears the id just before the exclusive release |
| `RwLock.RwLockHandle.ReleaseExclusive` | ccrwlock.c:171 | only ever reached by the exclusive holder |
| `RwLock.RwLockHandle.ReleaseShared` | ccrwlock.c:173 | only ever reached by a shared holder |
| `RwLock.RwLockHandle.Run` | ccrwlock.c:77-182 | any interleaving of calls and steps computes exactly the specified run and keeps the invariant |

## Left out

- Use of a handle's memory after it has been freed: the cells of `ThreadHandle` stay readable and frees are counted, so
  nothing is claimed about the loser's last reads (ccthread.c:156, ccthread.c:297-298).
- ThreadHandle.AllocationsEqualFrees: assumes both fences, that is sequential consistency, because the unfenced machine
  leaks.
- Semaphore.TimeoutOnTime: says that the interval has passed, not that the count was 0 throughout, because the code
  does not keep the latter.
- Signals lost to a waiter that times out at the same moment, which POSIX allows; the wakeup theorem is about condition
  variables that do not do this.
- Weak memory for `recursion`, `g_counter`, the semaphore's fields and the queue's: they are only touched under a lock
  and modelled as ordinary memory.
- The condition variable's own copy of the deadline arithmetic (cccondvar.c:161-168): the same statements as the
  semaphore's, modelled once in `Deadline`.
- RwLock.UnlockUndoesAcquisition: only for an unlock that runs without other threads in between;
  `RwLock.UnlockGivesBackHold` is about every interleaving.
- Starvation freedom and fairness of the spinlock, and writer preference of the read-write lock: not decided by the
  code.
- `ccmutex.c` beyond mutual exclusion, and `cccondvar.c` beyond wait, signal and the deadline: single foreign calls.
- The Win32 and GCD semaphores, the Windows condition variable, the POSIX read-write lock, and the non-`__atomic`
  branches of ccatomic.h: single foreign calls or other platforms.
- NULL guards, handles of ccthread_self (`is_self`), allocation failure, error returns of pthread calls, `printf`, thread
  naming, sleeping, yielding, TLS and `gettid`: input/output, platform code or one-branch facts.
