# BlitzMax embedded runtime: verification model

A Dafny model of the hard core of the BlitzMax embedded runtime: the precise mark/sweep collector with
its multicore stop protocol, the text codecs and string algebra beside it, the incremental HTTP reader
and the unbiased random ranges. `dafny verify dfyconfig.toml` checks everything.

## How the pieces fit

**Heap** (`HeapModel`, `HeapSpec`, `HeapFit`, `Heap`, `RawMemory`, `RawLaws`). The arena is a chain of
cells that tile `[0, offset)`; headers are records keyed by offset, linked by `previous`, `next` and
`freeNext`. `Heap.Arena` is the allocator: it updates the headers in place and is proved against
functions on the chain and the free list. Sums that the code makes in 32 bits are written out modulo
2^32.

**Sweep** (`SweepSpec`, `Sweep`). The single pass that rebuilds the free list, and the theorem that it
equals giving the unmarked blocks back one at a time, in any order.

**Mark and audit** (`Graph`, `MarkSpec`, `MarkLaws`, `Mark`, `Collect`). References are typed addresses
that a slot may hold wrongly; the audit resolves them with two cursors, queues blocks through `freeNext`,
and its marks are compared with reachability by chains of references. `Collect.CollectObjects` is a whole
collection up to the point where finalizers would run.

**Finalizers** (`Finalize`, `Finalizers`, `FinalizerRefinement`, `Renaming`, `BlockFinalizers`,
`BlockCycles`). The flag passes over the chain, a machine for whole runs in which user code, resurrection
and escaping exceptions interleave with collections, and the refinement that ties the two: every run on
the chain is a run of the machine. The chain uses offsets again and the machine never a name, so blocks
are called by the number of their allocation, and `Renaming` shows that names do not matter.

**Integrity** (`Integrity`). The diagnostic walk over raw headers decides the allocator's invariant. One
finding: on an arena that was never used the counters are not looked at.

**Stop protocol** (`Handshake`, `HandshakeSafety`, `HandshakeRuns`, `HandshakeCalls`). A step is one
atomic load or store, one lock operation or one wait of one task; any number of slots and tasks. Requests
are numbered by tickets, and the code sees only their 32-bit epochs. Two findings. The scan that is
repeated under the lock can never fail after the first one succeeded. And the wrap of the epoch is
harmless for exactly as many requests as there are epochs: an acknowledgement left over from a whole
cycle ago, together with a poll that is in flight over a single request, is taken for a fresh one
(`StaleAcknowledgement`), so a bound on requests per poll in flight would not be enough (`SafeIff`).
`HandshakeCalls` says what each operation does when its task runs alone, from the call to the return.

**Collections under the protocol** (`CollectionSafety`, `CollectionLaws`, `CollectionWhole`, `BlockRuns`,
`BlockLaws`, `BlockSafety`). Mutators, protocol steps and a collection that marks and sweeps one object at a time,
interleaved arbitrarily; and the same over the block chain, with allocation, RAW blocks, typed references
and finalizers, where every run is shown to be a run of the first. A run is timely if no acknowledgement
of an older request carries the epoch of the newest one; runs with at most as many requests as there are
epochs are (`FewTimely`), but the condition itself sets no bound on them.

**Worker** (`Worker`, `WorkerRuns`). Start, trampoline, exit and join of the managed worker, composed
with the protocol. Each accepted start is a new task of the protocol.

**Text** (`Utf`, `UtfLaws`, `UtfCode`, `Strings`, `StringLaws`, `StringsCode`, `Integers`, `IntegerLaws`,
`IntegerArrays`, `IntegersCode`, `Floats`, `FloatLaws`, `Enums`, `EnumLaws`). Each two-pass conversion is
a method proved against a function, and the functions are proved to undo each other; the laws say,
without the functions' own helpers, what single units, digits and names mean. Findings: a text that ends
in a high surrogate is encoded with a three-byte surrogate, which decodes to three replacement characters
(`RoundTripIff` gives the exact condition); lead bytes 0xF8 to 0xFF are taken for 0xF0 to 0xF7
(`AcceptsIff`); an array of integers need not survive a separator of digits and '-', and
`ArrayRoundTripIff` says which ones do. Bit masks and shifts are written as the divisions and remainders
they compute; a 64-bit flag mask is the set of its bits.

**HTTP** (`Http`, `HttpFrame`, `HttpLaws`). A connection receives a stream in arbitrary fragments; the
first outcome does not depend on them exactly when `maxRequestLine + 2 < maxHeaderBytes`, or the whole
buffer is shorter than a request line may be.

**Random ranges** (`Random`). Rejection on 32- and 64-bit words, with exact counts.

`Arithmetic` and `Sequences` hold helper facts.

## Model
| member | source | states |
|---|---|---|
| HeapModel.PayloadsDisjoint | runtime.mod/native/embedded_runtime.c:683-779 | in a heap that keeps its shape live payloads are 16-aligned, inside the arena and pairwise disjoint, and no header lies inside one |
| HeapModel.ReleaseKeepsShape | runtime.mod/native/embedded_runtime.c:654-680 | giving a block back keeps the headers tiling the arena, coalesced, and listed exactly once each |
| HeapModel.ReleaseCounts | runtime.mod/native/embedded_runtime.c:654-680 | giving a block back lowers the count and bytes of its kind by exactly that block, and no other |
| HeapSpec.AlignExact | runtime.mod/native/embedded_runtime.c:633-636 | the 32-bit alignment sum is exact for every size that fits the arena limit |
| HeapSpec.TakenKeepsShape | runtime.mod/native/embedded_runtime.c:713-756 | taking a listed block, split or whole, keeps the whole shape of the heap and its free list |
| HeapSpec.GrownKeepsShape | runtime.mod/native/embedded_runtime.c:728-752 | growing the tail by one block keeps the whole shape |
| HeapSpec.SearchIsFirstFit | runtime.mod/native/embedded_runtime.c:692-712 | the unrolled search stops at the first listed block that fits, or at the end if none does |
| HeapSpec.ServedLive | runtime.mod/native/embedded_runtime.c:683-779 | NULL is given exactly when no free block and no tail can hold the request; otherwise one new live block of that kind and size appears, with less than a header and an aligned unit to spare, and every other live block is untouched |
| HeapFit.ServedFromList | runtime.mod/native/embedded_runtime.c:692-731 | the first listed block with room is taken: whole if the rest could not hold a header and an aligned unit, else for exactly the bytes needed, the rest becoming one free block behind it at the head of the list |
| HeapFit.ServedFromTail | runtime.mod/native/embedded_runtime.c:728-752 | when no listed block has room the arena grows by exactly one block of the bytes needed, or the request is refused |
| HeapFit.GivenBack | runtime.mod/native/embedded_runtime.c:654-680 | a block that is given back becomes one empty unmarked block with its free neighbours, of their capacities and headers together |
| HeapFit.GivenBackFirst | runtime.mod/native/embedded_runtime.c:649-652 | what was given back last is looked at first: a request that fits the block is served from where it was |
| HeapSpec.ServedTallied | runtime.mod/native/embedded_runtime.c:758-777 | the live counters move with the metadata of the block that is handed out |
| HeapSpec.ReleasedLive | runtime.mod/native/embedded_runtime.c:654-680 | giving one block back leaves every other live block as it was |
| Heap.Arena.Search | runtime.mod/native/embedded_runtime.c:692-712 | the two-at-a-time loop returns the first fitting entry and its predecessor |
| Heap.Arena.Allocate | runtime.mod/native/embedded_runtime.c:683-779 | the new chain, free list and tail are those of the first-fit specification, the counters agree, and a refusal changes nothing |
| Heap.Arena.Release | runtime.mod/native/embedded_runtime.c:654-680 | the block is merged with its free neighbours in place, and exactly its free neighbours leave the free list |
| Heap.Arena.FreeRemove | runtime.mod/native/embedded_runtime.c:642-648 | unlinking one entry leaves the rest of the free list in order |
| RawMemory.MemFree | runtime.mod/native/embedded_runtime.c:1095-1113 | a RAW block is given back and every other live block stays; any other address panics and changes nothing |
| RawMemory.MemAlloc | runtime.mod/native/embedded_runtime.c:1082-1093 | NULL exactly for sizes that are zero, too wide or without room, with the heap untouched; otherwise one new RAW block of that size and no other change |
| RawLaws.RoomIff | runtime.mod/native/embedded_runtime.c:683-754 | there is room exactly for sizes of 1 to 2^32 - 1 that, rounded up to 16, a free block or the tail of the arena can hold |
| RawMemory.MemExtend | runtime.mod/native/embedded_runtime.c:1115-1149 | an extension carries the common prefix over to a new RAW block and gives the old one back, a size of 0 gives it back, a failed one leaves it; no other live block and no other data changes; NULL extends like an allocation, and any other invalid address panics |
| RawMemory.BufferStable | runtime.mod/native/embedded_runtime.c:467-501 | a native buffer is accepted exactly if it is empty, outside the arena, or inside one RAW payload |
| RawLaws.CoversIff | runtime.mod/native/embedded_runtime.c:467-501 | a RAW block covers a buffer exactly if each of its bytes is one that was asked for |
| RawMemory.StableSurvives | runtime.mod/native/embedded_runtime.c:467-501 | an accepted buffer inside the arena still lies inside a RAW payload after any sweep |
| SweepSpec.SweepIsRepeatedRelease | runtime.mod/native/embedded_runtime.c:2341-2385 | the one-pass sweep leaves the same blocks, flags and capacities and the same set of free blocks as releasing the unmarked blocks one by one, in any order |
| SweepSpec.SweepSurvivors | runtime.mod/native/embedded_runtime.c:2341-2385 | the live blocks after a sweep are exactly the RAW and the marked ones of before, each unchanged |
| Sweep.SweepStep | runtime.mod/native/embedded_runtime.c:2344-2385 | one step of the pass reclaims a dead block, joins it to the open free run or starts a new one, and keeps what was swept so far |
| Sweep.SweepHeap | runtime.mod/native/embedded_runtime.c:2341-2385 | the pass in place yields the swept chain and its rebuilt free list, with counters that match |
| Graph.ReachInClosed | runtime.mod/native/embedded_runtime.c:2044-2090 | what chains of references reach lies in every closed set that holds the roots |
| MarkSpec.ProgressComplete | runtime.mod/native/embedded_runtime.c:2044-2090 | when every marked block has been expanded, the marked blocks are exactly the reachable ones |
| MarkSpec.CleanIsHealthy | runtime.mod/native/embedded_runtime.c:1912-1989 | a finished audit without complaint means that no reachable slot holds an invalid reference |
| MarkLaws.TargetIs | runtime.mod/native/embedded_runtime.c:1878-1974 | a slot leads to a block exactly if it holds the payload address of a live block of its kind with an accepted descriptor, which strings do not need |
| MarkLaws.WrongIs | runtime.mod/native/embedded_runtime.c:1912-1989 | a slot is invalid exactly if it is no reference at all, or one to an object or array that leads nowhere |
| MarkLaws.WrongCounted | runtime.mod/native/embedded_runtime.c:1912-1989 | each invalid slot is counted once |
| Mark.LookupNearest | runtime.mod/native/embedded_runtime.c:1892-1909 | the block the cursors stop at decides the lookup of the whole chain |
| Mark.OutsideHeap | runtime.mod/native/embedded_runtime.c:1886-1890 | addresses outside the used arena, or misaligned ones, belong to no block |
| Mark.Auditor.MarkAllocation | runtime.mod/native/embedded_runtime.c:1878-1910 | whatever was looked up before, the two-cursor lookup answers as a scan of the whole chain would, and both cursors stay on the chain |
| Mark.Auditor.MarkBlock | runtime.mod/native/embedded_runtime.c:1912-1950 | a reference marks and enqueues its block once, or counts as invalid |
| Mark.Auditor.MarkString | runtime.mod/native/embedded_runtime.c:1952-1974 | a string is marked but never enqueued, and one outside the heap is a literal |
| Mark.Auditor.Dequeue | runtime.mod/native/embedded_runtime.c:2044-2060 | the queue threaded through free_next gives blocks out in order and leaves the free list as it was |
| Mark.Auditor.Drain | runtime.mod/native/embedded_runtime.c:2044-2090 | draining the queue terminates with every marked block expanded once |
| Collect.Audit | runtime.mod/native/embedded_runtime.c:1993-2100 | also when the epoch wraps, a block carries the new epoch if and only if it is reachable; the audit reports no invalid reference if and only if there is none; the counts are those of the marked blocks; and only marks change |
| Collect.ResetMarks | runtime.mod/native/embedded_runtime.c:1998-2006 | at the wrap every mark is cleared and nothing else |
| Collect.AllReached | runtime.mod/native/embedded_runtime.c:2259-2270 | the three unreachable counters are zero exactly when every managed block was reached |
| Collect.CollectObjects | runtime.mod/native/embedded_runtime.c:2152-2406 | a collection ends refused, invalid, all-live, finalizing or swept exactly under the conditions of the code, with the heap each outcome leaves, and with no mark ahead of the new epoch, so another may follow |
| Collect.CollectedMarks | runtime.mod/native/embedded_runtime.c:1998-2006 | whatever the outcome, wrap of the epoch included, the heap that a collection leaves has no mark ahead of the epoch |
| Collect.CollectionSafe | runtime.mod/native/embedded_runtime.c:2152-2406 | no collection, whatever its outcome, frees or alters a RAW or reachable block |
| Collect.CollectionPrecise | runtime.mod/native/embedded_runtime.c:2334-2405 | after a sweep every live block is RAW or reachable |
| Finalize.QueueFinalizers | runtime.mod/native/embedded_runtime.c:2274-2282 | exactly the unreached finalizable Objects that were never finalized become pending |
| Finalize.NextFinalizer | runtime.mod/native/embedded_runtime.c:2292-2305 | the first pending block after the previous one is flagged finalized, and no other block changes |
| Finalize.ClearPending | runtime.mod/native/embedded_runtime.c:1731-1754 | an escape clears every pending flag and keeps every finalized one |
| Finalizers.EnteredOnce | runtime.mod/native/embedded_runtime.c:2288-2309 | in every run, with resurrection and escaping exceptions, no finalizer is entered twice |
| Finalizers.FreedWhen | runtime.mod/native/embedded_runtime.c:2272-2405 | an object is reclaimed only by a collection that finds it unreachable, and only after its finalizer, if it has one; a cycle that queues finalizers reclaims nothing |
| Finalizers.CollectQueues | runtime.mod/native/embedded_runtime.c:2274-2283 | a collection queues exactly the unreachable objects with a finalizer that never ran |
| Finalizers.EscapeKeepsEligible | runtime.mod/native/embedded_runtime.c:1731-1754 | after an escape nothing is pending, the entered finalizer stays entered, and the skipped candidates are due again while unreachable |
| Finalizers.TwoCollections | runtime.mod/native/embedded_runtime.c:2272-2405 | if finalizers do nothing, two collections leave exactly the objects that were reachable |
| Finalizers.QuietCycle | runtime.mod/native/embedded_runtime.c:2272-2405 | a collection, finalizer calls after which nothing is pending and no field or root differs, and one more collection leave exactly the objects that were reachable |
| Finalizers.Drain | runtime.mod/native/embedded_runtime.c:2288-2309 | calling the pending finalizers one after another empties the queue |
| FinalizerRefinement.CollectRefines | runtime.mod/native/embedded_runtime.c:2152-2406 | a collection of the block chain is one collection of the finalizer machine on the objects it holds |
| Renaming.CollectNamed | runtime.mod/native/embedded_runtime.c:2272-2405 | a collection of the finalizer machine does the same whatever the objects are called |
| BlockFinalizers.CollectStands | runtime.mod/native/embedded_runtime.c:2152-2406 | a collection of the chain is the machine's collection: objects, phase, roots and log, blocks being called by the number of their allocation |
| BlockFinalizers.EnterStands | runtime.mod/native/embedded_runtime.c:2288-2308 | taking the next pending block is the machine's entry into its finalizer, which makes its object a root |
| BlockFinalizers.EscapeStands | runtime.mod/native/embedded_runtime.c:1731-1754 | clearing the chain's pending flags is the machine's escape, phase and roots included |
| BlockFinalizers.RunStands | runtime.mod/native/embedded_runtime.c:2152-2406 | every timely run on the chain is a run of the machine in which the same finalizers are called |
| BlockFinalizers.CalledOnce | runtime.mod/native/embedded_runtime.c:2288-2309 | in no run on the chain, in which offsets are used again, is a block's finalizer called twice |
| BlockFinalizers.ReclaimedWhen | runtime.mod/native/embedded_runtime.c:2272-2405 | a managed block leaves the chain only by a collection under an exclusive stop that finds it unreachable, after its finalizer, if it has one, was called |
| BlockCycles.TwoCollections | runtime.mod/native/embedded_runtime.c:2272-2405 | on the chain too: if between two collections of a timely run finalizers are called that write no field and leave the roots as they were, in any interleaving with the handshake, then what is left is exactly what was reachable at the first |
| BlockCycles.CycleEnds | runtime.mod/native/embedded_runtime.c:2288-2309 | calling the queued finalizers in heap order, each doing nothing, ends the cycle with the roots as before |
| Integrity.IntegrityValid | runtime.mod/native/embedded_runtime.c:2479-2580 | on any headers the checker terminates, and returns 1 if and only if some chain and some free list satisfy the heap invariant |
| Integrity.ListsByCount | runtime.mod/native/embedded_runtime.c:2540-2576 | a duplicate-free walk of as many free blocks as were counted lists all of them |
| Integrity.NoRepeat | runtime.mod/native/embedded_runtime.c:2540-2576 | a free list that ends visits no block twice |
| Integrity.ArenaAccepted | runtime.mod/native/embedded_runtime.c:2479-2580 | every heap the allocator and collector leave behind is accepted |
| Handshake.WrapNext | runtime.mod/native/embedded_gc_handshake.c:128-130 | the epoch after a ticket is the 32-bit sum with 0 skipped |
| Handshake.WrapFresh | runtime.mod/native/embedded_gc_handshake.c:128-130 | within a full cycle of tickets no two share an epoch |
| HandshakeSafety.StepInv | runtime.mod/native/embedded_gc_handshake.c:1-162 | every atomic load, store, lock operation and wait of every task keeps the protocol invariant |
| HandshakeSafety.ScanPasses | runtime.mod/native/embedded_gc_handshake.c:108-117 | a slot that the scan lets pass cannot run managed code before the request is withdrawn |
| HandshakeSafety.StoppedPasses | runtime.mod/native/embedded_gc_handshake.c:108-117 | a stopped slot passes the scan, so stopped is what the scan decides |
| HandshakeRuns.FreshRunInv | runtime.mod/native/embedded_gc_handshake.c:15-162 | every run of any number of slots, tasks and requests in which no acknowledgement of an older request carries the newest epoch keeps the invariant, and a granted stop is exclusive in it |
| HandshakeRuns.RunInv | runtime.mod/native/embedded_gc_handshake.c:15-162 | every run of any number of slots and tasks in which no more requests begin than epochs exist keeps the invariant |
| HandshakeRuns.InvExclusive | runtime.mod/native/embedded_gc_handshake.c:135-143 | while a stop is held no other slot is RUNNING and nobody else is deciding a stop |
| HandshakeRuns.HeldUntilEnd | runtime.mod/native/embedded_gc_handshake.c:119-162 | from the moment a stop is granted until its collector calls stop_end, every interleaving with fresh acknowledgements, whatever the number of requests, leaves it held by the same task and exclusive |
| HandshakeRuns.StopGranted | runtime.mod/native/embedded_gc_handshake.c:135-143 | stop_begin returns 1 exactly by holding the stop; the scan under the lock never contradicts the one before it |
| HandshakeRuns.StopFailed | runtime.mod/native/embedded_gc_handshake.c:144-152 | a stop that gives up has waited exactly its budget and leaves no request and no collector |
| HandshakeCalls.StopEnded | runtime.mod/native/embedded_gc_handshake.c:154-162 | when stop_end returns its task leads no stop, and if no other does no request, collector or grant is left |
| HandshakeCalls.ParkedResumes | runtime.mod/native/embedded_gc_handshake.c:76-79 | in every run with fresh acknowledgements: once the stop_end of a granted stop returns, its request is withdrawn, and every slot parked for it is RUNNING after two steps of its task |
| HandshakeCalls.StopAlone | runtime.mod/native/embedded_gc_handshake.c:119-153 | stop_begin run alone is refused exactly while a request stands or off RUNNING, granted exactly if every other slot is stopped, and else given up after its budget of waits with only a ticket used |
| HandshakeCalls.EndAlone | runtime.mod/native/embedded_gc_handshake.c:154-162 | stop_end run alone withdraws request and collector of its own stop, and changes nothing for any other slot |
| HandshakeCalls.PollPasses | runtime.mod/native/embedded_gc_handshake.c:67-73 | poll returns without change exactly when there is no request, for the collector, and off RUNNING |
| HandshakeCalls.PollParks | runtime.mod/native/embedded_gc_handshake.c:74-77 | otherwise it parks the slot, acknowledges the request, and waits for it |
| HandshakeCalls.PollResumes | runtime.mod/native/embedded_gc_handshake.c:76-79 | and when the request is over the slot is RUNNING again |
| HandshakeCalls.EnterAlone | runtime.mod/native/embedded_gc_handshake.c:81-91 | entering native code succeeds exactly from RUNNING and makes the slot native-safe |
| HandshakeCalls.LeaveAlone | runtime.mod/native/embedded_gc_handshake.c:92-106 | leaving native code without a request makes a native-safe slot RUNNING |
| HandshakeCalls.LeaveWaits | runtime.mod/native/embedded_gc_handshake.c:92-106 | and while a request stands it goes round without returning or changing a slot |
| HandshakeCalls.RegisterAlone | runtime.mod/native/embedded_gc_handshake.c:26-51 | registration takes the first EMPTY slot, clears its acknowledgement, and makes it RUNNING |
| HandshakeCalls.RegisterRefused | runtime.mod/native/embedded_gc_handshake.c:26-51 | it is refused without change while a request stands, when all slots are taken, or when binding fails |
| HandshakeCalls.UnregisterAlone | runtime.mod/native/embedded_gc_handshake.c:57-65 | unregistering succeeds exactly from RUNNING without a request, and leaves the slot EMPTY |
| HandshakeCalls.ScanAlone | runtime.mod/native/embedded_gc_handshake.c:108-117 | the scan passes exactly if every other slot is EMPTY, native-safe, or parked with the epoch |
| HandshakeRuns.StopWaits | runtime.mod/native/embedded_gc_handshake.c:135-146 | waits made and waits left always add up to the budget |
| HandshakeRuns.RestRunning | runtime.mod/native/embedded_gc_handshake.c:67-106 | a bound task outside the protocol is RUNNING or native-safe, and native-safe if another task holds a stop |
| HandshakeRuns.StaleAcknowledgement | runtime.mod/native/embedded_gc_handshake.c:108-133 | a run with one request more than there are epochs, and no poll in flight over more than one of them, in which the scan accepts a stale acknowledgement |
| HandshakeRuns.SafeIff | runtime.mod/native/embedded_gc_handshake.c:119-143 | for the two slots of the code a granted stop is exclusive in every run with at most n requests if and only if n is at most the number of epochs |
| CollectionSafety.RunSafe | runtime.mod/native/embedded_runtime.c:2170-2406 | in every timely interleaving of mutators, protocol steps, collections and finalizers handed an unreachable object, everything reachable from globals and frames is allocated (over objects; BlockRuns.BlocksSafe says it of slots and blocks) |
| CollectionSafety.NobodyMutates | runtime.mod/native/embedded_runtime.c:2170-2406 | while a collection marks or sweeps, no task can run managed code |
| CollectionSafety.FreedWhileStopped | runtime.mod/native/embedded_runtime.c:2173-2385 | if an object leaves the heap between two moments of a run, then in between a sweep step took it while a stop was held, nobody else was RUNNING, and it was unreachable |
| CollectionSafety.UnheldFreesNothing | runtime.mod/native/embedded_runtime.c:2173-2180 | over any stretch of a run in which no stop is held nothing is freed, so a stop that times out frees nothing |
| Worker.FewTimely | runtime.mod/native/embedded_runtime.c:337-452 | runs of the worker with no more requests than there are epochs are timely |
| BlockRuns.FewTimely | runtime.mod/native/embedded_runtime.c:2170-2406 | runs on the chain with no more requests than there are epochs are timely |
| CollectionSafety.FewTimely | runtime.mod/native/embedded_runtime.c:2170-2406 | runs with no more requests than there are epochs are timely |
| CollectionWhole.WholeCollection | runtime.mod/native/embedded_runtime.c:2170-2406 | from the moment its stop is granted a task can finish a collection step by step, and what is left, unchanged, is exactly what was reachable |
| CollectionSafety.CollectKeeps | runtime.mod/native/embedded_runtime.c:2341-2385 | collection steps over objects keep the roots, the fields of what is left, and everything reachable |
| CollectionLaws.OnlyStores | runtime.mod/native/embedded_runtime.c:2170-2406 | an act of managed code changes at most one field of one object, one that the task holds, to a value that it holds or to nil, and frees nothing |
| CollectionLaws.OnlyReached | runtime.mod/native/embedded_runtime.c:2170-2406 | a task gets hold only of what it allocates, loads from an object it holds, fetches from the globals, or is handed as a finalizer's object |
| CollectionSafety.SweepComplete | runtime.mod/native/embedded_runtime.c:2341-2385 | a completed sweep over objects leaves exactly the reachable ones |
| BlockRuns.RunSound | runtime.mod/native/embedded_runtime.c:2152-2406 | in every timely run of tasks, allocations, collections and finalizers on the chain every slot that user code can reach names a live block of its kind or a literal, and chain and free list keep their shape |
| BlockRuns.RunsHealthy | runtime.mod/native/embedded_runtime.c:1993-2100 | so no audit of such a run meets an invalid reference |
| BlockRuns.RunCollection | runtime.mod/native/embedded_runtime.c:2152-2406 | in any state that a run reaches CollectObjects, run on the arena, is a collection step of these runs; that no mark is ahead of the epoch is part of what runs keep |
| BlockLaws.StoredLoads | runtime.mod/native/embedded_runtime.c:2170-2406 | any task reads from a field of a live block what was last stored there, and no other field changes |
| BlockLaws.NewBlock | runtime.mod/native/embedded_runtime.c:1380-1396 | a served request gives a live block with empty fields and the task's newest reference leads to it; nothing else changes |
| BlockSafety.CollectMatched | runtime.mod/native/embedded_runtime.c:2152-2406 | a collection of the chain is a run of mark and sweep steps by the same collector on the objects it holds |
| BlockSafety.StepRefines | runtime.mod/native/embedded_runtime.c:2152-2406 | every step on the chain is a run of steps on the objects |
| BlockSafety.RunRefines | runtime.mod/native/embedded_runtime.c:2152-2406 | every timely run on the chain is a timely run on the objects, with the same handshake |
| BlockRuns.BlocksSafe | runtime.mod/native/embedded_runtime.c:2152-2406 | in every timely run, whatever chain of slots is followed from the roots by address alone, the slot it ends at is empty, a literal, or names a live block of its kind, so nothing freed is ever read |
| Worker.Lifecycle | runtime.mod/native/embedded_runtime.c:337-452 | each accepted start is answered by one non-zero join before the next can be accepted, its entry runs at most once, and join returns 1 exactly if the entry returned |
| WorkerRuns.JobDone | runtime.mod/native/embedded_runtime.c:337-452 | a whole job, start to join, gives 1 if the entry returned and -1 if it threw, and leaves the worker as it was but for the logs, ready for the next |
| WorkerRuns.ExitParks | runtime.mod/native/embedded_runtime.c:361-371 | a worker whose entry ends while a stop is requested is refused, parks and acknowledges |
| WorkerRuns.ExitResumes | runtime.mod/native/embedded_runtime.c:361-371 | and goes on with its next attempt when that stop has ended |
| WorkerRuns.JoinTimesOut | runtime.mod/native/embedded_runtime.c:431-452 | a join with a budget of b looks b + 1 times at a busy worker and then returns with nothing changed |
| WorkerRuns.StartRefused | runtime.mod/native/embedded_runtime.c:376-398 | a platform that cannot start a thread leaves the worker as it was |
| Worker.JoinedClean | runtime.mod/native/embedded_runtime.c:361-372 | when join is about to return 1 the worker holds no slot and no frame, and slot 1 is EMPTY, whatever collections overlapped its exit |
| Worker.EntryBound | runtime.mod/native/embedded_runtime.c:338-349 | the entry runs bound to slot 1, and not RUNNING while another task holds a stop |
| Worker.StartNeedsIdle | runtime.mod/native/embedded_runtime.c:383-394 | a start is accepted only with every earlier job joined |
| Worker.PanicOnly | runtime.mod/native/embedded_runtime.c:361-369 | the exit loop panics only with a frame left behind or after its last attempt |
| Worker.DoSound | runtime.mod/native/embedded_runtime.c:337-452 | every step of owner, worker and handshake keeps the lifecycle invariant |
| Utf.RoundTripIff | runtime.mod/native/embedded_runtime.c:3020-3173 | decoding an encoded text replaces its unpaired surrogates if and only if the text does not end in a high surrogate |
| Utf.EncodeDecode | runtime.mod/native/embedded_runtime.c:3091-3173 | what comes back for every text, a final high surrogate included |
| Utf.IdentityIff | runtime.mod/native/embedded_runtime.c:3020-3173 | a text survives encoding and decoding if and only if it is well-formed UTF-16 (section 2 of RFC 2781) |
| Utf.BytesIdentityIff | runtime.mod/native/embedded_runtime.c:3020-3173 | bytes survive decoding and encoding if and only if they are well-formed UTF-8 (section 4 of RFC 3629) |
| Utf.DecodedWellFormed | runtime.mod/native/embedded_runtime.c:3038-3060 | decoded text is well-formed UTF-16 and never longer than the bytes |
| Utf.AcceptsIff | runtime.mod/native/embedded_runtime.c:3020-3036 | the decoder accepts an ill-formed sequence exactly when lowering its lead byte by 8 makes it well formed |
| UtfLaws.DecodeOneIs | runtime.mod/native/embedded_runtime.c:3020-3036 | a well-formed front is taken whole and is the encoding of the result; one whose lead byte is 8 too high counts as the lower one; of any other front one byte is taken, for U+FFFD |
| UtfLaws.MendedAt | runtime.mod/native/embedded_runtime.c:3091-3105 | mending keeps every unit but unpaired surrogates, which become U+FFFD where they stand |
| UtfLaws.EncodeOrder | runtime.mod/native/embedded_runtime.c:3107-3124 | the bytes of code points are in the order of the code points |
| UtfLaws.PairOrder | runtime.mod/native/embedded_runtime.c:3096-3098 | surrogate pairs number U+10000 to U+10FFFF in order |
| Utf.DecodeOneScalar | runtime.mod/native/embedded_runtime.c:3020-3036 | the decoder always gives a scalar value and consumes at least one byte |
| UtfCode.DecodeNext | runtime.mod/native/embedded_runtime.c:3020-3036 | the continuation loop decodes as specified |
| UtfCode.FromUtf8 | runtime.mod/native/embedded_runtime.c:3038-3060 | measuring and filling agree, and the buffer is the decoded text |
| UtfCode.Utf8Length | runtime.mod/native/embedded_runtime.c:3091-3105 | the measured length is that of the encoding |
| UtfCode.ToUtf8 | runtime.mod/native/embedded_runtime.c:3151-3173 | the buffer of the measured length holds the encoding and a closing zero |
| UtfCode.ToUtf8Buffer | runtime.mod/native/embedded_runtime.c:3126-3149 | a bounded buffer gets the longest prefix of whole code points that fits, a closing zero, and no other byte changes |
| UtfCode.FitsWhole | runtime.mod/native/embedded_runtime.c:3126-3149 | the prefix is the whole text exactly when its encoding and the zero fit |
| UtfCode.ToUtf32 | runtime.mod/native/embedded_runtime.c:3179-3201 | conversion throws exactly on ill-formed text and otherwise gives its code points |
| UtfCode.FromUtf32 | runtime.mod/native/embedded_runtime.c:3203-3230 | every non-scalar is replaced, measuring and filling agree, and the second size check never fails |
| UtfCode.Utf32RoundTrip | runtime.mod/native/embedded_runtime.c:3179-3230 | text that converts to UTF-32 comes back |
| Strings.Leftmost | runtime.mod/native/embedded_runtime.c:2726-2735 | a find is the leftmost occurrence from the start, and -1 means there is none |
| Strings.JoinPieces | runtime.mod/native/embedded_runtime.c:2875-2963 | joining the parts of a split gives the text back |
| Strings.PiecesJoinIff | runtime.mod/native/embedded_runtime.c:2875-2963 | splitting a join gives the parts back if and only if no part lets a separator begin early |
| Strings.SingleSeparable | runtime.mod/native/embedded_runtime.c:2875-2963 | for a separator of one unit that condition is that no part contains it |
| Strings.SeparableFree | runtime.mod/native/embedded_runtime.c:2910-2917 | no part of a split contains the separator |
| Strings.PiecesFree | runtime.mod/native/embedded_runtime.c:2910-2917 | the parts of a split are separable |
| Strings.NoFewerPieces | runtime.mod/native/embedded_runtime.c:2875-2963 | splitting a join never gives fewer parts than were joined, whatever text stands in front |
| Strings.WordsJoin | runtime.mod/native/embedded_runtime.c:2918-2926 | words joined by blanks split into the same words |
| Strings.WordsAreWords | runtime.mod/native/embedded_runtime.c:2918-2926 | a split without separator gives non-empty parts without blanks |
| StringLaws.WordsKeep | runtime.mod/native/embedded_runtime.c:2890-2926 | the words together are the text without the units up to the space |
| StringsCode.FindFrom | runtime.mod/native/embedded_runtime.c:2726-2735 | null texts, negative starts and empty substrings included, the loop finds the leftmost occurrence |
| StringsCode.Replace | runtime.mod/native/embedded_runtime.c:2763-2799 | the result is the join of the split with the replacement; it is refused exactly when too long |
| StringsCode.CountPieces | runtime.mod/native/embedded_runtime.c:2763-2770 | the counting loop counts the parts that are then filled |
| StringsCode.Split | runtime.mod/native/embedded_runtime.c:2875-2929 | as many parts are filled as were counted, and they are those of the specification |
| StringsCode.SplitWords | runtime.mod/native/embedded_runtime.c:2890-2926 | the word loops count and fill the same words |
| StringsCode.SkipBlanks | runtime.mod/native/embedded_runtime.c:2918-2923 | the fill's unguarded skip over blanks stops inside the text, because a counted word is still to come |
| StringsCode.JoinParts | runtime.mod/native/embedded_runtime.c:2931-2963 | the measured buffer holds the join, null parts counting as empty; too long a result is refused |
| Integers.FromUnsigned | runtime.mod/native/embedded_string_integer.c:6-16 | the 21-character buffer always suffices for a 64-bit value and its sign |
| Integers.ParseSigned | runtime.mod/native/embedded_string_integer.c:53-91 | parsing a written number gives it back modulo 2^64, sign included |
| IntegerLaws.ReadIs | runtime.mod/native/embedded_string_integer.c:53-91 | a text of blanks, a sign, a prefix and digits in base 2, 10 or 16, in either case, is read as what the digits are worth, signed, in 64 bits, and ends behind them |
| IntegerLaws.AllRead | runtime.mod/native/embedded_string_integer.c:53-91 | and every text is of that form |
| IntegerLaws.PartIs | runtime.mod/native/embedded_string_integer.c:148-155 | a part is its number if only blanks follow it, and 0 otherwise |
| Integers.ElementRoundTrip | runtime.mod/native/embedded_string_integer.c:133-245 | every element of every width and sign survives, the least signed value included |
| IntegerArrays.ArrayRoundTripIff | runtime.mod/native/embedded_string_integer.c:125-245 | splitting the joined text gives the array back exactly if the text is no longer than INT32_MAX and: the array is empty; or the separator is empty and there is one element; or the separator has a unit other than '0' and no text lets it begin early; or it consists of zeros, the zeros of elements in a row never make up another separator, and no sign follows them |
| IntegerArrays.NonZeroRoundTrip | runtime.mod/native/embedded_string_integer.c:125-245 | without an element 0 the array comes back exactly if the text fits and splitting gives back the very texts that were joined |
| IntegerArrays.ArrayRoundTrip | runtime.mod/native/embedded_string_integer.c:125-245 | if the separator has a unit that is neither a digit nor '-', an array comes back exactly if its text fits |
| IntegerArrays.ZerosExample | runtime.mod/native/embedded_string_integer.c:125-245 | [0, 7] comes back over the separator 00, although its joined text is cut into other texts |
| IntegerArrays.DigitSeparator | runtime.mod/native/embedded_string_integer.c:125-245 | [11, 2] does not come back over the separator 1 |
| IntegersCode.Parse | runtime.mod/native/embedded_string_integer.c:53-91 | spaces, sign, base prefix and digits are read, and the end reported, as specified |
| IntegersCode.PartCount | runtime.mod/native/embedded_string_integer.c:133-146 | the counting loop counts the parts of the split |
| IntegersCode.SplitIntegers | runtime.mod/native/embedded_string_integer.c:148-183 | as many elements are written as were counted, each the parsed part cut to the width |
| IntegersCode.JoinIntegers | runtime.mod/native/embedded_string_integer.c:206-245 | the measured buffer holds the joined texts; too long a result is refused |
| Floats.ExpandedWorth | runtime.mod/native/embedded_string_float.cpp:13-95 | the positional text denotes exactly the value of the scientific text, has a digit before and after the point, and no superfluous trailing zero |
| Floats.ScientificMeaning | runtime.mod/native/embedded_string_float.cpp:13-95 | digits, point and power of ten as written denote that value |
| FloatLaws.NatDecimal | runtime.mod/native/embedded_string_float.cpp:34-41 | the number that digits stand for is the one whose decimal text they are |
| Floats.ExpandedFits | runtime.mod/native/embedded_string_float.cpp:47-95 | for the digit counts and exponent ranges in use the text fits the 64-byte buffer |
| Floats.Expand | runtime.mod/native/embedded_string_float.cpp:13-95 | the loops produce exactly that text, and nothing outside the exponent range |
| Enums.FlagRoundTripIff | runtime.mod/native/embedded_runtime.c:3411-3519 | with distinguishable names a flag value survives the text handed out for it, with no failure recorded, if and only if try_convert accepts it and the text is no longer than INT32_MAX |
| Enums.ReturnedIff | runtime.mod/native/embedded_runtime.c:3497-3519 | the returned bits alone are the value if and only if it is so accepted or 0, since a failure returns 0 |
| EnumLaws.AnyCase | runtime.mod/native/embedded_runtime.c:3370-3381 | names between bars, each in any case, give the bits of their items together |
| EnumLaws.RefusedIff | runtime.mod/native/embedded_runtime.c:3497-3518 | a text is refused exactly if it is empty or some segment has the letters of no name |
| EnumLaws.NothingLeft | runtime.mod/native/embedded_runtime.c:3423-3434 | the greedy choice leaves no bits that an item could still name |
| EnumLaws.ZeroNamed | runtime.mod/native/embedded_runtime.c:3423-3434 | an item 0 is named for the value 0 alone, and then only one |
| EnumLaws.DisjointAccepted | runtime.mod/native/embedded_runtime.c:3473-3482 | if no two items share a bit a value other than 0 is accepted exactly if it is made up of items |
| Enums.ChooseUnion | runtime.mod/native/embedded_runtime.c:3423-3434 | the greedily chosen items and the unnamed bits make up the value without overlap |
| Enums.Measure | runtime.mod/native/embedded_runtime.c:3423-3434 | the measuring pass counts the chosen names and the length of their text |
| Enums.ToFlagText | runtime.mod/native/embedded_runtime.c:3423-3456 | the filling pass chooses the same names and fills the buffer exactly |
| Enums.TryConvert | runtime.mod/native/embedded_runtime.c:3473-3482 | a value is accepted exactly if the same greedy choice leaves no bit, and zero only if it is declared |
| Enums.FromString | runtime.mod/native/embedded_runtime.c:3497-3518 | every segment between bars must be a name; the bits of the first match are collected |
| Http.SameOutcome | network.mod/httpserver.mod/httpserver.bmx:669-711 | any two ways of cutting a stream into receives that decide at all decide the same |
| Http.FragmentationIff | network.mod/httpserver.mod/httpserver.bmx:669-711 | fragmentation never matters if and only if the request-line and header limits are consistent |
| Http.OneDispatch | network.mod/httpserver.mod/httpserver.bmx:607-710 | although a request without a body is dispatched while parsing and the body stage follows in the same read, at most one request is dispatched on a connection, with the header and body that were sent |
| Http.NeverFull | network.mod/httpserver.mod/httpserver.bmx:670-670 | in no run does a connection that still waits have a full buffer, so that branch is never taken |
| Http.VerdictStable | network.mod/httpserver.mod/httpserver.bmx:677-710 | once the received bytes decide, more bytes decide the same |
| Http.Reader.Read | network.mod/httpserver.mod/httpserver.bmx:669-711 | one read of the connection object does what the step specification says |
| HttpFrame.FrameIff | network.mod/httpserver.mod/httpserver.bmx:531-607 | a header block is accepted exactly if the code's conditions on its request line and on the fields of its lines hold: readable, few enough, no Expect and no transfer coding, Host, and Content-Length |
| HttpLaws.FieldParsed | network.mod/httpserver.mod/httpserver.bmx:566-574 | a line that is a name, a colon and a value among blanks is a field with that name in lower case and exactly that value |
| HttpLaws.FieldRefused | network.mod/httpserver.mod/httpserver.bmx:567-572 | every other line is answered with 400 |
| HttpLaws.CaseOfNames | network.mod/httpserver.mod/httpserver.bmx:573-595 | header blocks whose field names differ only in case are framed alike |
| HttpLaws.FrameStatus | network.mod/httpserver.mod/httpserver.bmx:527-607 | with which status each header block is refused, by the first fault: 414, 400, 431, 413, 417, 501 or 411 |
| HttpLaws.HeaderIs | network.mod/httpserver.mod/httpserver.bmx:688-695 | the header ends behind the first empty line |
| HttpFrame.BodyLength | network.mod/httpserver.mod/httpserver.bmx:560-607 | an accepted request has no transfer coding and at most one decimal Content-Length, which is the length of its body (section 6.3 of RFC 9112) |
| HttpFrame.FieldsTell | network.mod/httpserver.mod/httpserver.bmx:560-599 | the header loop's flags and counts are those of the fields of the block |
| HttpFrame.RequestsIndependent | network.mod/httpserver.mod/httpserver.bmx:527-711 | with the real header parser too, fragmentation never matters under consistent limits |
| Random.Unbiased | random.mod/random.bmx:29-65 | every value of the interval, swapped or full-width ones included, is drawn by exactly floor((2^w - 1) / span) words, or one, and no other value by any |
| Random.SignedUnbiased | random.mod/random.bmx:109-119 | the sign-bit flip makes the signed ranges unbiased over the closed signed interval |
| Random.DrawInside | random.mod/random.bmx:29-65 | whatever is drawn lies in the closed interval |
| Random.HalfAccepted | random.mod/random.bmx:39-44 | at least half of the words are accepted |
| Random.Range | random.mod/random.bmx:29-65 | the rejection loop returns the draw of the first accepted word |

## Left out

- Weak memory orders and spin-lock fairness: steps are sequentially consistent and atomic; waiting is a step that may repeat.
- The single-core branch: the model follows the multicore one, where live counters change with the metadata under the lock.
- `heap_allocate_with_collection`: the retry after a collection, which may run user finalizers between its two attempts, is not modelled; the allocation and the collection it combines are.
- RawMemory.MemAlloc: a full arena refuses at once, where the code collects and tries again; so does RawMemory.MemExtend, which allocates through it.
- Custom trace callbacks, nested struct descriptors and array element descriptors: a block's outgoing slots are one sequence of typed references, and whether its descriptor is accepted is a flag.
- Root table, root frames and exception frames as linked structures: the audit takes all root slots as one sequence; the worker model counts frames.
- `setjmp` and `longjmp`: a throw to the worker's boundary restores the frame counts saved there; an escape from a finalizer is one step.
- CollectionSafety.RunSafe: stated over objects with reference fields. `BlockSafety.RunRefines` makes every run on the chain a run on such objects, with a collection refined into mark and sweep steps; since that view has no slot for a reference that leads nowhere, safety of the chain is stated on its own slots, by `BlockRuns.BlocksSafe`.
- HandshakeRuns.FreshRunInv: says nothing about runs in which a left-over acknowledgement carries the newest epoch; `SafeIff` shows that some of them are unsafe.
- HandshakeRuns.SafeIff: for the two slots and two tasks of the code; safety for any number is `FreshRunInv`.
- Finalizers run in heap order; the machine lets any pending one run next, which allows every order.
- Worker.Lifecycle: for timely runs, which those with no more requests than epochs are.
- Collection totals, byte statistics of the last sweep, phase timing and lock counters: plain accumulation.
- Arena acquisition from the target SDK and the panic handler: a panic ends the modelled operation.
- IntegerArrays.ArrayRoundTripIff: elements are bit patterns; their little-endian bytes in the array are not modelled.
- Floats.Expand: takes the text of the shortest-digits routine with up to 17 digits; that routine and number parsing are library code.
- Enums.Measure: the 32-bit length does not wrap, because that takes chosen names of 2^32 units together, more than a 32-bit address space holds unless items share a name.
- Enums that are not flags: a plain table lookup. Descriptor validation is left out.
- String allocation failure: a new buffer is always available; what the code does without one is to return the empty string.
- Unicode case tables, trimming, case conversion, hashing and comparison of strings: true but easy.
- HTTP request-line syntax: an arbitrary function of the line; routing, response writing, timeouts, sockets and files are input and output.
- HttpFrame.BodyLength: repeated identical Content-Length fields are refused by the code, which the RFC allows; nothing is said about them beyond that.
- The random source: the words it delivers are a parameter of the rejection loop.
