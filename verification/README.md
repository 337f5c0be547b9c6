# mmap-shield: a model of SIGBUS recovery

`mmap-shield` maps files and turns a SIGBUS raised while a mapped page cannot be read into an ordinary
`Err`. What makes that hard is concurrency: any number of threads open, access and drop mappings while a
signal handler, which may take no lock, decides from an atomic pointer whether the faulting address belongs
to the crate, and the kernel reuses addresses. This project models those parts of the crate and proves what
its documentation promises of them. Where the code does not keep a promise, the exact condition under which
it does is proved instead.

`dafny verify dfyconfig.toml` checks everything.

| file | models |
|---|---|
| `Wrappers.dfy` | `Option` and `Result` |
| `Sets.dfy` | the size of a subset |
| `Runs.dfy` | runs of a step system and what they keep, for any states and labels |
| `Pages.dfy` | page rounding by bit masks on 64-bit words, and the page-stride loops |
| `Registry.dfy` | the region registry: snapshots, the atomic pointer, two generations of retired snapshots |
| `ProtectedCall.dfy` | one thread: `with_sigbus_protection`, the C checkpoint, the per-thread state, the handler's decision |
| `Lifecycle.dfy` | the whole crate: threads, mappings, registry, handlers and the kernel, interleaved |
| `Scenarios.dfy` | runs of the whole crate that exist, from every reachable moment: opens, drops, reuse of an address, a reported fault |
| `Prefetch.dfy` | timed prefetch: waiter, worker, mutex, condition variable, cancellation flag |
| `Poison.dfy` | fault counter, poison flag and events of one mapping shared by many threads |
| `PositionalRead.dfy` | `pread_exact` over a kernel that reads short |
| `Access.dfy` | the access methods of `SafeMmap`, `ReadGuard` and `PreadReader` as one thread sees them |

## How to read the models

A concurrent part is a state, a type of labels and a partial function `Step`; a run is any list of labels,
so a theorem about runs covers every interleaving of any number of threads. Each such module proves an
inductive invariant step by step and then its theorems. Fields that only record history (rotations seen by a
lookup, faults recorded so far) are said to do so where they are declared; no step's effect on the other
fields depends on them. Beside the steps stand the imperative parts of the source, as methods with loops and
classes whose fields are those of the source, proved against the same definitions.

Assumed throughout:

- The page size is a power of two, and the length of a mapping plus one page fits in `usize`.
- `mmap` returns a page-aligned address whose page-rounded range is disjoint from every live mapping, and
  otherwise any address at all, so also one that a dropped mapping had.
- Atomic operations are sequentially consistent.
- A mapping is not dropped while an access borrows it.
- Closures, callbacks and the prefetch worker do not panic, and `start <= end` in a range.

A snapshot is named by the order in which it was published. Its address is not handed out again, so a scan of
a freed snapshot is always noticed and stops the model in a state of its own (`UsedFreed`). A jump into a frame
that has returned, which POSIX.1-2017 leaves undefined in its description of `longjmp`, stops it in `WildJump`.

## Where the code and its documentation differ

- `src/signal/registry.rs:43-46` and `158-159` promise that two full mutations pass before a snapshot is
  freed. One does (`Registry.FreedAfterOneFullMutation`). What a handler can count on is that a snapshot it
  loaded survives until the third rotation after the load, or the second if it loaded between the rotation
  and the swap of a mutation, and not longer (`Registry.GracePeriodExact`, `Registry.TwoRotationsCanFree`).
- `src/mmap/prefetch.rs:32` promises that all pages are touched. The last page of the range is skipped if and
  only if the first byte lies further into its page than the last byte leaves room for,
  `offset % page + (len - 1) % page >= page` (`Pages.ProbeCoverage`), as for 4096 bytes from offset 1
  (`Pages.LastPageMissed`).
- `src/mmap/prefetch.rs:71-73` promises `Timeout` when the deadline expires. `wait_timeout` is not called in a
  loop, so after a spurious wakeup the call waits for the worker without a deadline
  (`Prefetch.SpuriousWakeupForfeitsDeadline`); for every request there is a run that makes all its touches after
  that and returns `Ok` (`Prefetch.SpuriousRunIgnoresDeadline`). `Prefetch.TimeoutExactly` says when `Timeout` is
  returned.
- `src/mmap/prefetch.rs:75-77` says that the worker is joined except on timeout. It is joined then too
  (line 126), so a touch that stalls holds the call past its deadline for as long as it stalls
  (`Prefetch.StalledTouchHoldsCall`, with a run in `Prefetch.DeadlinePassesDuringTouch`).
- `src/mmap/mod.rs:228` promises that a limit of `u32::MAX` disables poisoning. That many faults poison the
  mapping as any other limit does (`Poison.EveryLimitPoisons`, `Poison.MaxLimitPoisons`).
- `src/mmap/mod.rs:988-990` promises that `reset_poison` clears both the flag and the counter. A recorder in
  flight can leave the mapping poisoned with a count of 0 (`Poison.ResetRacesWithRecorder`);
  `Poison.ResetIsCleanExactly` says when it cannot.
- `src/mmap/mod.rs:976` calls the counter the number of faults recorded for this mapping. A fault is charged to the
  mapping that the innermost call accesses. When a closure nested in a read of one mapping reads another and touches
  the first, the other is charged, and may be poisoned (`Scenarios.NestedCallIsChargedForOuter`); a fault is charged
  to its own mapping if and only if the innermost call accesses it (`Scenarios.ChargedToItsOwnExactly`).
- `src/mmap/guard.rs:19-20` says that several reads of a guard share one checkpoint. Each takes its own
  (`Access.SafeMmap.GuardRead`, which opens a protected call every time).
- The flag of `src/signal/thread_state.rs:38` is a boolean. Once a nested protected call has returned, the
  closure that made it is no longer protected (`ProtectedCall.RecoverableUntilNestedReturn`).

## Model

| member | source | states |
|---|---|---|
| `Registry.ReclamationClosedForm` | src/signal/registry.rs:75-127 | after n published mutations, whenever the mutex is free: the live snapshot is the n-th and holds the replayed region list, `current` is exactly the one before, `previous` exactly the one before that, and all older ones have been freed exactly once |
| `Registry.NeverMoreThanThree` | src/signal/registry.rs:170-175 | at every step, also inside a mutation: no double free, at most three snapshots allocated, and the live one is among them |
| `Registry.NullReturnLosesNothing` | src/signal/registry.rs:112-117 | the early return of `unregister` on a null pointer is taken only when both retired lists are empty |
| `Registry.GracePeriodExact` | src/signal/registry.rs:157-175 | the snapshot a handler is scanning has been freed if and only if three rotations began since its load, or two when it loaded between a rotation and the swap that follows |
| `Registry.GraceWindow` | src/signal/registry.rs:141-153 | a handler that sees fewer than two rotations between its load and its last use never reads a freed snapshot |
| `Registry.TwoRotationsCanFree` | src/signal/registry.rs:170-175 | from every reachable state with a published snapshot and a free mutex, a run with two rotations frees the snapshot under a handler: the window cannot be widened |
| `Registry.FreedAfterOneFullMutation` | src/signal/registry.rs:39-46 | a retired snapshot survives the next full mutation and is freed by the rotation that opens the one after it |
| `Registry.LookupLinearizesAtLoad` | src/signal/registry.rs:141-153 | whatever mutations run meanwhile, `contains` answers membership in the region list of the instant it loaded the pointer |
| `Registry.UntouchedRegionKept` | src/signal/registry.rs:90-119 | between two points of a history, a region whose start no mutation names is registered at one exactly when it is at the other |
| `Registry.StableRegionIsFound` | src/signal/registry.rs:141-153 | a region that covers the address, is registered when the lookup answers and has not been named by a mutation since the load is found |
| `Registry.AnswerIsCurrent` | src/signal/registry.rs:141-153 | the answer also is membership in the list of the moment it is given, unless a mutation since the load named the start of a region covering the address |
| `Registry.StepKeepsInv` | src/signal/registry.rs:75-175 | every step of a mutation or a lookup keeps the closed form and what each lookup knows |
| `Registry.MutateIsFourSteps` | src/signal/registry.rs:75-98 | the lock, clone, swap and unlock steps of an undisturbed mutation do what the whole mutation says |
| `Registry.MutateApplies` | src/signal/registry.rs:107-127 | through its rotation, clone, swap and retirement, a mutation makes the registered list the old one with its operation applied |
| `Registry.Retain` | src/signal/registry.rs:119 | `retain` keeps exactly the regions with another start |
| `Registry.RetainInPlace` | src/signal/registry.rs:119 | every region, wherever it stands in the list, is kept once and in its place or dropped, by its own start alone: order and multiplicity of the others are kept |
| `Registry.Statics.RotateRetired` | src/signal/registry.rs:170-175 | the loop frees every snapshot of the older generation and moves the newer one there |
| `Registry.Statics.Register` | src/signal/registry.rs:75-98 | the registered list is the old one with the new region at its end, and the retired lists are as the closed form says |
| `Registry.Statics.Unregister` | src/signal/registry.rs:107-127 | afterwards a region is registered exactly when it was and has another start |
| `Registry.Statics.Contains` | src/signal/registry.rs:141-153 | the scan of a snapshot finds an address exactly when a region of the replayed history covers it |
| `ProtectedCall.NeverWildNeverPanics` | csrc/sigsetjmp_shim.c:33-49 | however protected calls nest, the handler never jumps into a returned frame and neither `expect` fails |
| `ProtectedCall.RecoveryResumesTop` | src/signal/handler.rs:56-61 | recovery returns from the checkpoint of the innermost call with the fault; all frames below are untouched |
| `ProtectedCall.RecoverableUntilNestedReturn` | src/signal/mod.rs:138-155 | a running closure has the flag, and survives a fault in a registered region, if and only if no protected call nested in it has returned |
| `ProtectedCall.FaultKillsExactly` | src/signal/handler.rs:39-49 | a fault kills at once if and only if the thread is in no protected call or in a closure to which a nested one has returned; otherwise it is handled |
| `ProtectedCall.DecisionKillsExactly` | src/signal/handler.rs:51-61 | a handled fault is recovered in the innermost call if the address is registered, and kills the process if it is not |
| `ProtectedCall.ResultIntegrity` | src/signal/mod.rs:101-167 | a returned call invoked its closure once; it returned `Ok` of the closure's value exactly when no fault was recovered in it, and otherwise `Err` of the address this thread's handler stored during this very call |
| `ProtectedCall.StepKeepsInv` | src/signal/mod.rs:101-167 | every step keeps flag, jump buffer, closure and result in agreement with the stage of the innermost call |
| `ProtectedCall.ThreadState.SigbusHandler` | src/signal/handler.rs:30-62 | it jumps exactly when the thread is in a protected block and the registry holds a region covering the address, what the thread is afterwards in both cases, and that these are the steps of a fault and its decision |
| `ProtectedCall.ThreadState.RunClosure` | src/signal/mod.rs:119-134 | a closure makes the steps of its text in their order, all of every nested call included, until one kills the process; and it comes to what its text and the registered regions mean |
| `ProtectedCall.ThreadState.WithSigbusProtection` | src/signal/mod.rs:101-167 | the thread makes the steps of the call and of its closure's text, until one kills the process; the caller gets the meaning of the closure, which is what the machine has returned; the frames below keep their place, and the flag is down afterwards |
| `Lifecycle.ProtectedFaultReturnsErr` | src/signal/handler.rs:30-62 | in every interleaving, after a fault inside a mapping accessed by the call or by one that encloses it, in a closure that made no nested call, the handler is still deciding, or the innermost call is returning with this fault, or its caller has `Err` of this address |
| `Lifecycle.HandlerIsWaitFree` | src/signal/handler.rs:46-61 | in every interleaving, from its load on, after as many own steps as there are regions left to scan and a constant the thread has reported the fault, unless the grace period ended during the scan |
| `Lifecycle.HandlerRecoversAlone` | src/signal/handler.rs:46-61 | from every reachable moment of that decision within the grace period, loaded or not, the thread's own steps bring `Err` of the address to the caller, whoever holds the mutex |
| `Lifecycle.OnlyTheseFaultsKill` | src/signal/handler.rs:39-54 | the process dies only of a fault outside every protected call, after a nested call has returned, or outside every mapping that the thread's calls access |
| `Lifecycle.DecisionIsTheAnswer` | src/signal/handler.rs:51-61 | in every reachable state, the decision kills the process if and only if no region of the snapshot that the handler loaded covers the address, and otherwise the process lives |
| `Lifecycle.FaultKillsExactly` | src/signal/handler.rs:46-61 | whatever opens and drops run before the decision, a handled fault kills if and only if no published mapping covers the address at the moment the handler loads |
| `Lifecycle.HandlerWindow` | src/signal/registry.rs:157-175 | among all threads and mappings too, the snapshot a handler is scanning has been freed if and only if three rotations began since its load, or two when it loaded between a rotation and the swap that follows, and a handler has used a freed one only then |
| `Scenarios.TwoOpensCanFree` | src/mmap/mod.rs:392-395 | from every reachable moment at which a handler is about to load for a borrowed fault and the mutex is free, three opens free the snapshot under its scan with only two rotations after its load: the window of the end-to-end results is needed and cannot be widened |
| `Lifecycle.RegistryIsLiveMappings` | src/mmap/mod.rs:392-405 | under any interleaving and any address reuse: a mapping is registered exactly when its region is in the list, and registered regions are disjoint, start at distinct addresses and lie in mapped memory |
| `Scenarios.ChargedToItsOwnExactly` | src/mmap/mod.rs:513-517 | the innermost call, which reports a fault, accesses the mapping the fault happened in if and only if the address lies in the mapping that call accesses |
| `Scenarios.NestedCallIsChargedForOuter` | src/mmap/mod.rs:513-517 | from every reachable moment inside a closure, a nested call on another mapping reports a fault in the outer one as its own, at an address outside its mapping |
| `Lifecycle.DropRemovesExactlyItsRegion` | src/mmap/mod.rs:1064-1068 | `unregister`, given only an address, removes one region: that of the mapping being dropped |
| `Scenarios.OpenCompletes` | src/mmap/mod.rs:392-405 | an open runs wherever the kernel may place it and the mutex is free: the mapping is live there, its region is the last of the list, nothing else has changed |
| `Scenarios.DropCompletes` | src/mmap/mod.rs:1064-1068 | a drop runs from every reachable moment at which the mapping is live and not borrowed and the mutex is free: the mapping is gone from memory, its region from the list, all others are as they were, and the kernel may place a mapping there again |
| `Scenarios.AddressIsReused` | src/sys/mmap.rs:580-588 | after the drop a new mapping can be opened at the same address, and is then registered there once |
| `Scenarios.FaultIsReportedInSomeRun` | src/signal/handler.rs:30-62 | from every reachable moment with a free mutex, a file can be mapped anywhere the kernel allows, a new thread can fault at any of its bytes, and gets `Err` of that address |
| `Lifecycle.RetainRemovesOne` | src/signal/registry.rs:107-127 | where starts are distinct, removing a start removes one occurrence of one region |
| `Lifecycle.StepKeepsInv` | src/mmap/mod.rs:392-405 | every step of any thread, handler, mapping or the kernel keeps the invariant that the theorems rest on |
| `Prefetch.OutcomeIsSound` | src/mmap/prefetch.rs:90-150 | in every interleaving: `Ok` only if the worker was never cancelled and touched every stride position without a fault, `Sigbus` only for the first position that faulted, `Timeout` exactly when the flag was set and the worker's own result otherwise, and the worker has exited by then |
| `Prefetch.FaultIsReportedInSomeRun` | src/mmap/prefetch.rs:49-61 | a fault at any stride position of the range is reported by some run, with the address of that position |
| `Prefetch.CancellationIsPrompt` | src/mmap/prefetch.rs:44-47 | at most one touch begins after the flag is set |
| `Prefetch.RunsAreBounded` | src/mmap/prefetch.rs:90-150 | the request bounds the number of steps of every run |
| `Prefetch.NeverStuck` | src/mmap/prefetch.rs:105-138 | until the call returns a step is enabled that needs neither the deadline nor a spurious wakeup: no deadlock and no lost wakeup |
| `Prefetch.SpuriousWakeupForfeitsDeadline` | src/mmap/prefetch.rs:116-134 | after a spurious wakeup no run cancels the worker or returns `Timeout` |
| `Prefetch.SpuriousRunIgnoresDeadline` | src/mmap/prefetch.rs:116-138 | for every request a run with a spurious wakeup makes every touch of the range afterwards and returns `Ok`, and the deadline never counts |
| `Prefetch.StalledTouchHoldsCall` | src/mmap/prefetch.rs:119-131 | while a touch neither ends nor faults no run returns, whether the deadline has passed or not |
| `Prefetch.DeadlinePassesDuringTouch` | src/mmap/prefetch.rs:119-131 | for every request that is not empty, a run in which the deadline passes during the first touch and the cancelled call waits for that touch |
| `Prefetch.TimeoutExactly` | src/mmap/prefetch.rs:116-150 | a call that waited returns `Timeout` if and only if the wait reported the deadline and no result was stored by the time the mutex was taken again |
| `Prefetch.StepKeepsInv` | src/mmap/prefetch.rs:105-149 | every step of waiter and worker keeps the agreement of slot, mutex, flag and progress |
| `Prefetch.StrideComplete` | src/mmap/prefetch.rs:44-65 | a stride that has passed the end of its range is the whole list of stride positions |
| `Prefetch.ProbePages` | src/mmap/prefetch.rs:35-66 | the loop touches a prefix of the stride; all of it unless it is cancelled or faults; it tests the flag before every touch, and a fault names the first position that cannot be read |
| `Poison.OvershootSinceFresh` | src/mmap/mod.rs:1039-1055 | from the opening or a reset at rest on, until the next reset, with limit M and T threads, accesses nested in closures included, at most max(1, M) - 1 + T faults are recorded, provided a `u32` holds that number (or the faults recorded so far) |
| `Poison.OvershootBound` | src/mmap/mod.rs:1039-1055 | the same from the opening, and that each thread records at most one fault at or above the limit |
| `Poison.OvershootIsReached` | src/mmap/mod.rs:1039-1055 | for every limit and every set of threads a run reaches that number |
| `Poison.EveryLimitPoisons` | src/mmap/mod.rs:1049-1054 | for every limit a single thread can bring the mapping to rest poisoned, with exactly as many faults as the limit |
| `Poison.MaxLimitPoisons` | src/mmap/mod.rs:226-236 | so it can with the limit `u32::MAX` |
| `Poison.PoisonStopsAccess` | src/mmap/mod.rs:1013-1020 | once the flag is up no access gets past its check, and only threads already past it can record further faults |
| `Poison.AccountsBalanceSinceFresh` | src/mmap/mod.rs:1039-1055 | under the same proviso, from the opening or a reset at rest on, with no call in flight the counter and the `Sigbus` events and `Err(Sigbus)` results since are one number c, the mapping is poisoned exactly when c has reached max(1, M), and `Poisoned` was announced once for each fault from there on |
| `Poison.AccountsBalance` | src/mmap/mod.rs:1039-1055 | the same from the opening |
| `Poison.ResetIsCleanExactly` | src/mmap/mod.rs:1008-1011 | counter and flag stay consistent in every run after a reset if and only if at its second store the flag is down and no thread in flight is about to raise it |
| `Poison.ResetAtRestIsClean` | src/mmap/mod.rs:986-990 | a reset while no access is in flight clears both, keeps them consistent afterwards and is a fresh start for the two results above |
| `Poison.ResetRacesWithRecorder` | src/mmap/mod.rs:1008-1011 | a run that ends at rest, poisoned, with a count of 0 |
| `Poison.RecordIsTheSteps` | src/mmap/mod.rs:1039-1055 | the atomic steps of an undisturbed recorder do what recording says as a unit |
| `Poison.NestedAccessSpends` | src/signal/mod.rs:138-155 | an access made from the closure of another and over leaves that one unable to recover from a fault, and the accesses around it as they were |
| `Poison.RefusedAccessChangesNothing` | src/mmap/mod.rs:513-517 | an access made from a closure and refused before it touches memory leaves the closure as it was |
| `Poison.AccessLeaves` | src/mmap/mod.rs:503-518 | an outermost access without a fault changes nothing, and cannot fault recoverably once a nested protected call has returned |
| `Poison.StepKeepsInv` | src/mmap/mod.rs:1013-1055 | every step keeps the ledgers of what is recorded, reported, announced, returned and in flight |
| `Pages.RoundingAgrees` | src/sys/mmap.rs:444-447 | for every power-of-two page the mask expressions of `advise_range`, `flush` and `mincore` give the same range, from the start of the first page to the end of the last, no intermediate sum or difference of a request inside the mapping wraps, and both refuse exactly the requests outside it |
| `Pages.MaskIsFloor` | src/sys/mmap.rs:484 | on 64-bit words `x & !(page - 1)` is rounding down to a page multiple |
| `Pages.MaskClearsLowBits` | src/sys/mmap.rs:445 | at any word width, clearing the low k bits subtracts the remainder modulo 2^k |
| `Pages.SmallestPageCover` | src/sys/mmap.rs:475-487 | the range is page-aligned, covers the request, stays in the page-rounded mapping, and is contained in every page-aligned range that covers the request |
| `Pages.ProbeCoverage` | src/mmap/mod.rs:668-686 | a fault-free probe touches exactly ceil(len / page) distinct pages of its range: all of them, or all but the last exactly when `SkipsLastPage` holds; nothing is touched exactly when the range is empty |
| `Pages.LastPageMissed` | src/mmap/mod.rs:676-683 | 4096 bytes from offset 1 reach into page 1, which is not touched |
| `Pages.StridePages` | src/mmap/prefetch.rs:41-65 | the touched positions lie in the range and in consecutive pages from its first |
| `Pages.ResidencyAgainstProbe` | src/sys/mmap.rs:531-552 | entry i of `mincore` is about the i-th page from that of the first byte, the entries are the pages of the range, and they are none or one more than a probe of the same range touches, none for an aligned offset |
| `PositionalRead.PreadExact` | src/sys/pread.rs:24-52 | for every sequence of `pread` results: it succeeds exactly when all are positive and fill the buffer, which then equals the range of the file; otherwise the last result says which error; the delivered prefix is in place and the rest of the buffer untouched |
| `Access.CheckBounds` | src/mmap/mod.rs:1022-1037 | a range is refused exactly when it does not fit, overflow included, with the request and the length in the error |
| `Access.SafeMmap.GuardRead` | src/mmap/guard.rs:93-128 | for any closure, with nested calls and faults anywhere: `OutOfBounds` without any step of the thread, or the steps of a protected call of the closure and its value on the bytes of the range, or `Sigbus` at the address of the fault that ended it, or the end of the process |
| `Access.SafeMmap.Read` | src/mmap/mod.rs:503-518 | as the guard, after the poison check; for `Sigbus` the counter goes up by one, the event is announced, and from the limit on the flag is raised and announced; for any other result nothing is charged |
| `Access.SafeMmap.ReadInto` | src/mmap/mod.rs:815-839 | the same into a buffer; every failure but `Sigbus` leaves the buffer and the thread alone |
| `Access.SafeMmap.Write` | src/mmap/mod.rs:556-585 | the range becomes the data, the order of the four checks, that nothing else is ever written, that only a fault is charged, and what the charge is |
| `Access.SafeMmap.Probe` | src/mmap/mod.rs:668-686 | it succeeds exactly when every stride position can be read, otherwise reports the first that cannot, and charges nothing but that fault |
| `Access.SafeMmap.PrefetchWithTimeout` | src/mmap/mod.rs:766-787 | for every run of the protocol: `Timeout`, announced, exactly when the worker was told to stop; otherwise `Sigbus` of the position after those touched, charged once, exactly when the worker failed, and `Ok` when it touched every stride position; the worker has exited |
| `Access.SafeMmap.RecordSigbusFrom` | src/mmap/mod.rs:1039-1055 | the method form of recording, to which `Poison.RecordIsTheSteps` ties the steps |
| `Access.SafeMmap.ResetPoison` | src/mmap/mod.rs:1008-1011 | flag and counter are cleared and the events kept |
| `Access.PreadReader.Read` | src/fallback/mod.rs:82-102 | for any closure: its value on the bytes of the range exactly when every `pread` delivers something, and otherwise the error that the last `pread` stands for |
| `Access.PathsAgree` | src/fallback/mod.rs:82-102 | for any closure `read` and `PreadReader::read` return the same, `read_into` delivers the bytes the closure is given, or all refuse the range with the same error |

## Left out

- Lifecycle.ProtectedFaultReturnsErr: a handler that has read a freed snapshot stays in the "still deciding" state, because what it does then is undefined; `Lifecycle.HandlerRecoversAlone` gives progress under the window.
- Registry.GraceWindow: the wall-clock argument at `src/signal/registry.rs:161-169`, that no handler is ever slow enough to leave the window, is an argument about time and stays a hypothesis.
- Poison.OvershootBound: it is about runs without `reset_poison`, and about limits and threads that leave the counter room, max(1, M) - 1 + T < 2^32, or runs with fewer than 2^32 faults. Past that the counter wraps in the steps, and debug builds of the source panic; the run of `Poison.OvershootIsReached` goes there when the limit is `u32::MAX` and there are two threads or more. The same holds for `Poison.AccountsBalance`.
- Poison.PoisonStopsAccess: reads through `guard()` check and count nothing (`src/mmap/mod.rs:626-628`), so they are no part of the poison and accounting results.
- Registry.Statics.Register: a method body is one critical section; what other threads see inside it is stated about the steps of `Registry.Step`. The same holds for `Unregister`.
- Access.SafeMmap.Read: the class is one thread's view of a mapping; sharing is in `Poison` and `Lifecycle`. A closure is a function of the bytes and a text of faults and nested protected calls; what accesses nested in it charge to their mappings is not in this contract, but in the steps of `Poison`.
- Access.SafeMmap.ReadInto: which addresses cannot be paged in is an input, fixed during a call. The same holds for `Write` and `Probe`.
- Access.SafeMmap.Write: an interrupted copy is taken to have written a prefix.
- Prefetch.ProbePages: the flag, which another thread sets, reads false a given number of times; races are in the steps of `Prefetch.Step`.
- Access.SafeMmap.PrefetchWithTimeout: which run the two threads of the protocol make is an input; there always is one that returns (`Prefetch.NeverStuck`, `Prefetch.RunsAreBounded`).
- Registry.Statics.Contains: no mutation runs meanwhile, as in a method body nothing does; `Registry.LookupLinearizesAtLoad` is about a scan interleaved with mutations.
- ProtectedCall.ThreadState.SigbusHandler: it looks up a registry that nobody changes meanwhile; in `Lifecycle` load, scan and decision are steps of their own.
- Weak memory orderings: atomics are sequentially consistent.
- Real system calls and signal delivery: nondeterministic steps under the assumptions above; the re-raise ends the process.
- Installing the handler once, the process-wide disposition, the creation of the pthread key and the destruction of thread states. Until some thread has created its state the handler reads key 0 (`src/signal/thread_state.rs:54`), which may be another library's; the model takes that thread to have no state, which matters only for a fault outside every protected call.
- `SafeMmapOptions::open` up to `mmap`: opening and locking the file, and the computation of the length, with their errors.
- `FsType`, `Advice`, protection and visibility flags, builder setters, error texts, accessors.
- `mlock`, eviction, `as_slice` and `as_mut_slice`, private copies of written pages.
- Destructors that `siglongjmp` skips; panics in closures, callbacks and workers; poisoned mutexes; reversed ranges.
- The signal test helpers, the victim binary, benchmarks, integration tests and container scripts.
