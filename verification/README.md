# Verified models of the operating-systems course projects

Dafny models of the hard cores of the projects in the repository, with their proofs. Each
component comes as functions on values, with lemmas about them, and, where the C code works in
place, as a class whose methods are proved to do to its arrays and pointers what the functions do
to values.

- **Copy-on-write fork (P5)**: `Kalloc`, `Vm`, `VmProofs`, `CowFrames`, `CowSystem`, `CowBoot`,
  `CowStarve`, `CowLaws`, `CowKernel`.
  Frames, page directories and processes as state; user loads, user stores with fault and retry,
  fork, grow, shrink, exit and wait as steps. The specification is a machine in which every process
  has private pages; copyuvm and cowuvm both refine it. `CowLaws` says what each step does in bytes and
  addresses, by the answers of loads alone.
- **Retrying RPC over UDP (P8)**: `RpcServer`, `RpcSystem`, `RpcValues`, `RpcCalls`,
  `RpcProgress`, `RpcAnyPackets`, `RpcProgram`. Clients,
  a network that keeps every packet and delivers any of them at any time, the server's main thread
  and its idle threads as one step system. One logged execution per request is the specification; `RpcValues` and
  `RpcCalls` put it in terms of keys, values and the actions of the run, and `RpcProgress` shows that
  no call is stuck.
- **Stride scheduler (P4)**: `StrideTable`, `StrideFair`, `StrideStarve`, `StrideLaws`, `StrideKernel`. The
  process table and the pstat slots through every step that touches them. The charge of the previous slot is pending
  while the choice is made, hence `tp`, the pass value with that charge.
- **xv6 files and buffers (P5)**: `FsBlocks`, `FsTrunc`, `FsFiles`, `FsSpace`, `FsKernel` (bitmap,
  block map, truncation, reading and writing, and the room that takes) and `Bio`, `BioHistory`,
  `BioKernel` (the buffer cache, and its contents told by what was done to it).
- **Pipe on sleep and wakeup (P5)**: `PipeBuffer`, `PipeSystem`, `PipeCalls`, `PipeProc`. Threads
  interleave at every point where the pipe's lock or the process table's lock is taken or released;
  `PipeCalls` says what each call returns and which bytes are its own.
- **K&R allocator (P5)**: `Umalloc`, `UmallocLaws`, `UmallocKernel`.
- **Parallel merge sort (P6)**: `Psort`, `PsortThreads`. **ext2 recovery (P7)**: `Ext2`.
  **Regex matcher (P5)**: `Grep`.

`dafny verify dfyconfig.toml` checks everything.

Some promises do not hold of the code as it is. Each has its exact condition here and a case that meets it.

- A copying page fault with no free frame breaks the kernel's accounting (`VmProofs.FaultExact`, `CowStarve.StarvationReached`).
- Shrinking a process to exactly 0 loses its pages (`CowSystem.ShrinkToZeroLosesPages`).
- More than 16384 tickets give stride 0, which starves others (`StrideFair.StarvesExactly`, `StrideStarve.StarvationReached`).
- Pass values overflow after 131070 dispatches (`StrideFair.NoOverflow`, `StrideFair.OverflowAfter`).
- A killed writer can leave a reader asleep on a full pipe (`PipeSystem.CutOffLosesWakeup`, `PipeSystem.WakeupCanBeLost`).
- A client with the id -1 has requests executed twice (`RpcAnyPackets.AtMostOnceExact`, `RpcAnyPackets.TwiceRuns`).
- A file within one block of 4 GiB is not recovered (`Ext2.RecoveryExact`, `Ext2.LargestFileFails`).
- malloc's sizes wrap around (`Umalloc.UnitsSuffice`, `Umalloc.SbrkArgExact`, `Umalloc.MallocKeeps`, `Umalloc.BigRequestGoesAstray`).
- balloc on a full disk gives a block beyond it (`FsBlocks.BallocExact`, `FsBlocks.FullDiskGoesOn`).

## Model

| member | source | states |
|---|---|---|
| CowSystem.CowEqualsEager | P5_XV6_CoW_Fork/kernel/vm.c:299-356 | main theorem: two runs of the same loads, stores, forks, grows, shrinks, exits and waits, one forking with cowuvm and one with copyuvm, give equal answers, every byte loaded included, as long as the answers that depend on free memory agree |
| CowSystem.StepRefines | P5_XV6_CoW_Fork/kernel/vm.c:398-426 | every step, under either fork, has the effect and the answer it would have on processes with private memory, and keeps the invariant; it panics only when a copying fault finds no frame or a fork finds a page missing |
| CowSystem.RunInvariant | P5_XV6_CoW_Fork/kernel/vm.c:338-348 | in every state of every run the count of each frame equals the number of its holders, a writable user PTE maps a frame of count 1, and no PTE maps a free frame |
| CowSystem.LoadRefines | P5_XV6_CoW_Fork/kernel/vm.c:330-356 | a user load reads the byte of the process's own private page |
| CowSystem.StoreRefines | P5_XV6_CoW_Fork/kernel/vm.c:398-426 | a user store, through the fault and the retry if the page is read-only, changes that byte of that process and nothing of any other |
| CowSystem.FaultRefines | P5_XV6_CoW_Fork/kernel/vm.c:398-426 | the write fault changes what no process sees, and leaves the faulting page writable |
| CowSystem.ForkRefines | P5_XV6_CoW_Fork/kernel/proc.c:127-160 | fork gives the child the parent's size and bytes and changes nobody else's; a failed fork changes nothing |
| CowSystem.GrowRefines | P5_XV6_CoW_Fork/kernel/proc.c:106-122 | growing adds pages up to the new size or changes nothing; what a load reads there is in CowLaws.GrownPageIsZero |
| CowSystem.ShrinkRefines | P5_XV6_CoW_Fork/kernel/proc.c:106-122 | shrinking drops exactly the pages past the new size |
| CowSystem.ShrinkToZeroLosesPages | P5_XV6_CoW_Fork/kernel/proc.c:115-117 | the exception: shrinking to exactly 0 reports failure and keeps the size, yet every page is gone |
| CowSystem.ExitRefines | P5_XV6_CoW_Fork/kernel/proc.c:165-203 | exit leaves a zombie and gives the children to init |
| CowSystem.WaitRefines | P5_XV6_CoW_Fork/kernel/proc.c:207-234 | wait removes the child and changes nobody else's memory |
| CowSystem.NeverCrashes | P5_XV6_CoW_Fork/kernel/kalloc.c:82-94 | while nobody has shrunk to exactly 0 and no copying fault lacks a frame, no step reaches a panic, kfree's zero-count panic included |
| CowSystem.ForkCrashExact | P5_XV6_CoW_Fork/kernel/vm.c:338-342 | a copy-on-write fork panics exactly when a page below the size is missing and it gets as far as copying |
| CowSystem.ForkExitWaitRestores | P5_XV6_CoW_Fork/kernel/proc.c:127-234 | fork, the child's exit and wait restore every reference count and the set of free frames |
| CowSystem.OutOfMemoryRestores | P5_XV6_CoW_Fork/kernel/vm.c:228-251 | allocuvm fails exactly when there are fewer free frames than missing pages, and then mappings, counts and the free set are as before |
| CowSystem.SameHoldsSameCounts | P5_XV6_CoW_Fork/kernel/kalloc.c:15-47 | equal holders mean equal counts and the same free frames |
| CowLaws.RunLaw | P5_XV6_CoW_Fork/kernel/proc.c:106-234 | in every run, under either fork, each step changes the answers of all loads, of every process at every address, and the sizes, parents and zombies, as the laws of CowLaws say in literal bytes and addresses, and answers as they say |
| CowLaws.StepLaw | P5_XV6_CoW_Fork/kernel/vm.c:228-426 | the law of loads for one step: a store changes one byte of one process, a fork gives the child the parent's answers, growing gives 0 from the end of the last page to that of the new one, shrinking -1 from there on |
| CowLaws.GrownPageIsZero | P5_XV6_CoW_Fork/kernel/vm.c:241-249 | in every run, after an sbrk that grew a process, a load from each address of the pages that it added answers 0 |
| CowLaws.StepTable | P5_XV6_CoW_Fork/kernel/proc.c:106-234 | the law of the process table for one step: sizes, parents and zombies |
| CowLaws.StepAnswers | P5_XV6_CoW_Fork/kernel/proc.c:106-234 | what the answers mean that do not depend on free memory, sbrk's for every size and difference included |
| CowLaws.GrowExact | P5_XV6_CoW_Fork/kernel/vm.c:228-251 | sbrk grows a process if and only if the new size is at most 0xA0000 and there is a free frame for each page to be added |
| CowLaws.ForkExact | P5_XV6_CoW_Fork/kernel/proc.c:127-160 | a fork of a process without missing pages succeeds if and only if there are fewer than 64 processes and 14 free frames, and one more a page if it copies |
| CowLaws.BootReads | P5_XV6_CoW_Fork/kernel/vm.c:189-200 | the first process reads its init code, then zeros up to 4096, and nothing beyond |
| CowBoot.BootInv | P5_XV6_CoW_Fork/kernel/proc.c:75-102 | the state after kinit and userinit satisfies the invariant and shows one process with the init code |
| CowBoot.BootExact | P5_XV6_CoW_Fork/kernel/proc.c:75-102 | the machine boots if and only if it has 29 frames to manage, and then all others are free |
| CowBoot.InitUvmInv | P5_XV6_CoW_Fork/kernel/vm.c:189-200 | inituvm maps one page holding the image and keeps the invariant |
| Kalloc.FreePagesCountsFrames | P5_XV6_CoW_Fork/kernel/kalloc.c:117-124 | free_pages = length of the duplicate-free free list = number of frames with count 0, and those are the same frames |
| Kalloc.RefsBounded | P5_XV6_CoW_Fork/kernel/kalloc.c:126-131 | a reference count never reaches the limit of an int |
| Kalloc.AllocFresh | P5_XV6_CoW_Fork/kernel/kalloc.c:101-115 | kalloc fails exactly when no frame has count 0, and hands out a frame nobody holds |
| Kalloc.AllocAcct | P5_XV6_CoW_Fork/kernel/kalloc.c:101-115 | kalloc keeps counts equal to holders |
| Kalloc.FreeAcct | P5_XV6_CoW_Fork/kernel/kalloc.c:68-96 | kfree of a held frame does not panic, keeps counts equal to holders, and the frame becomes free exactly if that was its last holder |
| Kalloc.FreeLast | P5_XV6_CoW_Fork/kernel/kalloc.c:82-91 | with count 1 the caller is the one holder |
| Kalloc.IncAcct | P5_XV6_CoW_Fork/kernel/kalloc.c:126-131 | inc_ref_cnt accounts for one more user mapping |
| Kalloc.DecAcct | P5_XV6_CoW_Fork/kernel/kalloc.c:133-138 | dec_ref_cnt accounts for one mapping less |
| Kalloc.KinitAcct | P5_XV6_CoW_Fork/kernel/kalloc.c:50-62 | after kinit every managed frame is free, once, with count 0 |
| Kalloc.KinitOrder | P5_XV6_CoW_Fork/kernel/kalloc.c:50-62 | kinit leaves the frames on the free list from the highest down |
| Kalloc.FreeThenAlloc | P5_XV6_CoW_Fork/kernel/kalloc.c:68-115 | a frame whose last reference goes is filled with 1s, and is the next that kalloc gives |
| VmProofs.SetupKvmKeeps | P5_XV6_CoW_Fork/kernel/vm.c:134-149 | setupkvm never panics, changes no other directory, and its directory has the page table that covers all user addresses |
| CowFrames.SetupFrames | P5_XV6_CoW_Fork/kernel/vm.c:134-149 | setupkvm succeeds if and only if 13 frames are free, and takes that many |
| CowFrames.KernelMapped | P5_XV6_CoW_Fork/kernel/vm.c:109-149 | setupkvm maps each page of the kernel's ranges to itself, not for users, and writable but for text and read-only data; it maps no other |
| VmProofs.AllocKeeps | P5_XV6_CoW_Fork/kernel/vm.c:228-251 | allocuvm keeps the invariant and other address spaces; it runs out exactly when free frames do, so mappages cannot fail there |
| CowFrames.AllocFrames | P5_XV6_CoW_Fork/kernel/vm.c:228-251 | with enough free frames allocuvm takes one a page and moves no page mapped before |
| VmProofs.DeallocKeeps | P5_XV6_CoW_Fork/kernel/vm.c:257-278 | deallocuvm drops exactly the pages of the range and keeps the invariant |
| VmProofs.FreeVmKeeps | P5_XV6_CoW_Fork/kernel/vm.c:282-295 | freevm frees the whole directory, never panics, and keeps all other address spaces |
| VmProofs.CopyKeeps | P5_XV6_CoW_Fork/kernel/vm.c:299-328 | copyuvm gives the new directory the same bytes in its own frames, and succeeds only if all pages are present |
| CowFrames.CopyTook | P5_XV6_CoW_Fork/kernel/vm.c:299-328 | copyuvm succeeds if and only if there is a free frame a page, and then takes just those and copies each entry's flags |
| VmProofs.CowKeeps | P5_XV6_CoW_Fork/kernel/vm.c:330-356 | cowuvm gives the new directory the same bytes through shared read-only frames; it succeeds exactly if all pages are present and panics exactly if not |
| CowFrames.ShareFrames | P5_XV6_CoW_Fork/kernel/vm.c:330-356 | cowuvm takes no frame, and leaves parent and child with the same frame behind every page |
| VmProofs.FaultKeeps | P5_XV6_CoW_Fork/kernel/vm.c:398-426 | pgfltintr keeps the invariant and what every process sees, and makes the page writable |
| VmProofs.FaultExact | P5_XV6_CoW_Fork/kernel/vm.c:414-415 | pgfltintr keeps the invariant if and only if it is not a copying fault without a free frame (kalloc's result is not checked) |
| CowStarve.StarvationReached | P5_XV6_CoW_Fork/kernel/vm.c:414-415 | it happens: from the first state of every machine with 14 frames more than it needs to boot, a run without a starved fault leads to one in which a store by the first child is reported done and the counts no longer equal the holders |
| CowStarve.StoreBreaks | P5_XV6_CoW_Fork/kernel/vm.c:411-418 | after that store the child's page is physical page 0 |
| CowKernel.Kernel.Kinit | P5_XV6_CoW_Fork/kernel/kalloc.c:50-62 | the loop of kinit on the free list and the arrays, equal to the function on values |
| CowKernel.Kernel.Kalloc | P5_XV6_CoW_Fork/kernel/kalloc.c:101-115 | kalloc on the free list, count array and counter, equal to the function on values |
| CowKernel.Kernel.Kfree | P5_XV6_CoW_Fork/kernel/kalloc.c:68-96 | kfree with its three cases, equal to the function on values |
| CowKernel.Kernel.IncRefCnt | P5_XV6_CoW_Fork/kernel/kalloc.c:126-131 | inc_ref_cnt, equal to the function on values |
| CowKernel.Kernel.DecRefCnt | P5_XV6_CoW_Fork/kernel/kalloc.c:133-138 | dec_ref_cnt, equal to the function on values |
| CowKernel.Kernel.WalkPgdir | P5_XV6_CoW_Fork/kernel/vm.c:52-72 | walkpgdir with create, in place, equal to the function on values |
| CowKernel.Kernel.Mappages | P5_XV6_CoW_Fork/kernel/vm.c:77-98 | mappages' loop, with failure and the remap panic, in place, equal to the function on values |
| CowKernel.Kernel.Setupkvm | P5_XV6_CoW_Fork/kernel/vm.c:134-149 | setupkvm's loop over the kernel mappings, in place, equal to the function on values |
| CowKernel.Kernel.Deallocuvm | P5_XV6_CoW_Fork/kernel/vm.c:257-278 | deallocuvm's loop, in place, equal to the function on values |
| CowKernel.Kernel.Allocuvm | P5_XV6_CoW_Fork/kernel/vm.c:228-251 | allocuvm's loop and its undoing on failure, in place, equal to the function on values, whose new pages CowLaws.GrownPageIsZero shows to read 0 |
| CowKernel.Kernel.Freevm | P5_XV6_CoW_Fork/kernel/vm.c:282-295 | freevm, in place, equal to the function on values |
| CowKernel.Kernel.Copyuvm | P5_XV6_CoW_Fork/kernel/vm.c:299-328 | copyuvm's loop and its failure exit, in place, equal to the function on values |
| CowKernel.Kernel.Cowuvm | P5_XV6_CoW_Fork/kernel/vm.c:330-356 | cowuvm's loop and its failure exit, in place, equal to the function on values |
| CowKernel.Kernel.Pgfltintr | P5_XV6_CoW_Fork/kernel/vm.c:398-426 | pgfltintr's two cases, in place, equal to the function on values |
| CowKernel.Kernel.Fork | P5_XV6_CoW_Fork/kernel/proc.c:127-160 | fork in place is the step system's fork |
| CowKernel.Kernel.Growproc | P5_XV6_CoW_Fork/kernel/proc.c:106-122 | growproc in place is the step system's grow and shrink |
| CowKernel.Kernel.Reap | P5_XV6_CoW_Fork/kernel/proc.c:221-233 | wait's reaping in place is the step system's wait |
| RpcSystem.RunsAreLinearizable | P8_Distributed_Systems/server.c:51-97 | main theorem: in every run over a losing, duplicating, reordering network each finished call was executed exactly once, between its call and its return, and returned that execution's result; every result is the operation's on the store left by the executions before (in keys and values: RpcValues.LogReturns); the store is the fold of the logged operations |
| RpcSystem.RealTimeOrder | P8_Distributed_Systems/client.c:33-70 | of two calls, one finished before the other began, the first took effect first |
| RpcValues.LogReturns | P8_Distributed_Systems/server_functions.c:11-24 | in every run an executed get of a key in range has the value that the last put to that key before it put, or 0 if there was none; an executed put has 0; either has -1 for a key out of range |
| RpcValues.CallReturns | P8_Distributed_Systems/server_functions.c:11-24 | and that is what each finished call returned, by one execution of its request while it was in progress |
| RpcValues.StoreHolds | P8_Distributed_Systems/server_functions.c:8-24 | the server's array has for each key what was last put there, or 0 |
| RpcCalls.CallTakesEffect | P8_Distributed_Systems/client.c:33-111 | every finished call was made by one action of the run with its operation, key and value, and returned by a later one with its result; between the two its request was executed, with that result |
| RpcCalls.CallsInOrder | P8_Distributed_Systems/client.c:33-111 | of two calls, one of which returned before the other was made, the first was executed first |
| RpcProgress.CallCanReturn | P8_Distributed_Systems/server.c:51-97 | no call is stuck: from every reachable state with a call in progress there is a way on in which it returns, with its own request in the history, unless it or what main works on asks for key 1024 |
| RpcProgress.OldIsIgnored | P8_Distributed_Systems/server.c:51-54 | a packet with a number below the stored one changes nothing and gets no answer |
| RpcSystem.StepInv | P8_Distributed_Systems/server.c:51-97 | every step of clients, network, the get or put thread and idle threads keeps the invariant, an idle's lookup and claim in the middle of a get or put included |
| RpcSystem.EnrollInv | P8_Distributed_Systems/server.c:33-74 | a lookup and claim keeps the invariant, whatever the get or put thread is doing |
| RpcSystem.LateAnswer | P8_Distributed_Systems/server.c:55-60 | a slot that an idle claims while main is about to answer from it already holds the right result |
| RpcSystem.SlotAlwaysFound | P8_Distributed_Systems/server.c:33-47 | with at most 100 clients every thread that looks its client up finds a slot, so no step is undefined but an access with key 1024 |
| RpcSystem.ReplyCall | P8_Distributed_Systems/client.c:53-65 | a result that a client accepts is that of an execution since the call began |
| RpcSystem.NewIsUnlogged | P8_Distributed_Systems/server.c:70-73 | a request above the stored number has not been executed, and nobody is asleep over the slot |
| RpcSystem.AnswerOk | P8_Distributed_Systems/server.c:54-69 | the stored result answers a repeated request rightly, except while a get's or put's result is being stored |
| RpcSystem.FoldAppend | P8_Distributed_Systems/server_functions.c:11-24 | running one more operation extends the sequential log |
| RpcServer.SlotFindsClient | P8_Distributed_Systems/server.c:33-42 | the scan's early break never misses a client that has a slot |
| RpcServer.ClaimKeepsTable | P8_Distributed_Systems/server.c:44-73 | lookup and claim keep the occupied slots a prefix of distinct clients and touch no other client's slot |
| RpcServer.SlotExists | P8_Distributed_Systems/server.c:33-42 | a free slot exists while fewer than 100 clients have one |
| RpcAnyPackets.AtMostOnceAlways | P8_Distributed_Systems/server.c:33-97 | for any packet stream, even rewound or conflicting, with negative numbers or any key, as long as no packet has the id -1: no request is executed twice, each client's gets and puts run in strictly increasing number order, and the slots stay a prefix with distinct ids |
| RpcAnyPackets.AtMostOnceExact | P8_Distributed_Systems/server.c:33-47 | at most once holds of every run with packets of given clients if and only if -1, the mark of a free slot, is not one of their ids (given that there is another) |
| RpcAnyPackets.TwiceRuns | P8_Distributed_Systems/server.c:33-47 | the run behind it: client -1 puts, another client takes its slot, and the same put is executed again |
| RpcProgram.KvServer.constructor | P8_Distributed_Systems/server.c:106-111 | main's table initialisation |
| RpcProgram.KvServer.Claim | P8_Distributed_Systems/server.c:30-73 | the scan loop with its break, the new entry, the comparison and the claim, in place, for any id; None when there is no slot |
| RpcProgram.KvServer.Reply | P8_Distributed_Systems/server.c:56-68 | result if done, acknowledgement if not |
| RpcProgram.KvServer.Get | P8_Distributed_Systems/server_functions.c:11-16 | get, with its range check: -1 outside it, otherwise what the array has at the key; None for key 1024, which passes the check and is one past the array |
| RpcProgram.KvServer.Put | P8_Distributed_Systems/server_functions.c:18-24 | put, with its range check; None for key 1024, which passes the check and is one past the array |
| RpcProgram.KvServer.Advance | P8_Distributed_Systems/server.c:33-96 | one step of a get's or put's thread in place, between two points where idle threads may act, is the step system's |
| RpcProgram.KvServer.AdvanceIdle | P8_Distributed_Systems/server.c:33-80 | one step of an idle's thread in place, at any time, is the step system's |
| RpcProgram.KvServer.Serve | P8_Distributed_Systems/server.c:22-101 | a whole get or put, undisturbed, is those steps one after another |
| RpcProgram.RpcConnection.SendReqWithRetry | P8_Distributed_Systems/client.c:33-70 | the retry loop returns the first result unless five receives in a row missed before it, dies at the first five misses in a row otherwise, and advances the number exactly on a return |
| RpcProgram.OutcomeUnique | P8_Distributed_Systems/client.c:33-70 | that description fixes the outcome |
| RpcProgram.RetryLoopIsClientStep | P8_Distributed_Systems/client.c:53-65 | of all packets received only the one that ends the call has an effect, the step system's |
| StrideFair.ProportionalShare | P4_XV6_Stride_Scheduling/kernel/proc.c:315-342 | main theorem: over runs of any length the stride-weighted ticks of two competitors differ by a bound fixed at the start, while other processes fork, exit, sleep and wake |
| StrideLaws.ShareByTickets | P4_XV6_Stride_Scheduling/kernel/proc.c:315-342 | the same in tickets: the ticks of two competitors, each times 16384 divided by its tickets, differ by at most two strides and what their pass values differed by at the start |
| StrideLaws.SharesExactly | P4_XV6_Stride_Scheduling/kernel/proc.c:315-342 | with numbers of tickets that divide 16384 the ticks are in proportion to the tickets up to a constant (the other direction by exchanging the two) |
| StrideLaws.TicketsLast | P4_XV6_Stride_Scheduling/kernel/proc.c:521-529 | after settickets(n) a process has n tickets and the stride 16384 / n, in every run until it exits or asks again |
| StrideFair.FairRun | P4_XV6_Stride_Scheduling/kernel/proc.c:315-342 | over any run tp[i] - pass[j] stays below the greater of its first value and two strides, and pass grows by stride times ticks |
| StrideFair.FairDispatch | P4_XV6_Stride_Scheduling/kernel/proc.c:324-342 | no dispatch raises tp[i] - pass[j] above the greater of its previous value and 2 * stride[i] |
| StrideFair.TwoStridesReached | P4_XV6_Stride_Scheduling/kernel/proc.c:339-342 | two strides are reached, because the previous slot is charged only after the choice |
| StrideFair.NoStarvation | P4_XV6_Stride_Scheduling/kernel/proc.c:320-342 | a process that stays RUNNABLE is passed over at most a number of times computed from the pass values, unless a slot with stride 0 goes before it |
| StrideFair.StarvesForever | P4_XV6_Stride_Scheduling/kernel/proc.c:521-529 | settickets with more than 16384 gives stride 0, and such a slot can starve another process for ever |
| StrideFair.StarvesExactly | P4_XV6_Stride_Scheduling/kernel/proc.c:521-529 | while all with slots stay RUNNABLE, a charged process is passed over for ever if and only if a slot with stride 0 goes before it |
| StrideStarve.StarvationReached | P4_XV6_Stride_Scheduling/kernel/proc.c:521-529 | it happens: with any number of tickets above 16384 a run from the first state (a fork, settickets and a few rounds) leads to one where the child is RUNNABLE and passed over by as many dispatches as one likes |
| StrideStarve.PairRound | P4_XV6_Stride_Scheduling/kernel/proc.c:320-342 | what a round does to the first process and its child: the lesser pass is picked, the child on a tie, and the slot before it is charged |
| StrideFair.InRangeNotBlocked | P4_XV6_Stride_Scheduling/kernel/proc.c:521-529 | with tickets up to 16384 nobody is blocked |
| StrideFair.GapIsLeast | P4_XV6_Stride_Scheduling/kernel/proc.c:340 | the terms of that number in closed form |
| StrideFair.NoOverflow | P4_XV6_Stride_Scheduling/kernel/proc.c:340-341 | for 131070 dispatches no pass value or tick count overflows an int |
| StrideFair.OverflowAfter | P4_XV6_Stride_Scheduling/kernel/proc.c:340 | and that is exact for the first process alone |
| StrideTable.SlotTable | P4_XV6_Stride_Scheduling/kernel/proc.c:187-201 | in every run a live process past its fork has exactly one slot in use with its pid, and a slot in use belongs to one such process |
| StrideTable.CurrentSlot | P4_XV6_Stride_Scheduling/kernel/proc.c:188-200 | the running process's slot is the current one, and fork's scan always finds a free slot |
| StrideTable.FreeSlotFound | P4_XV6_Stride_Scheduling/kernel/proc.c:189-200 | the pigeonhole behind it |
| StrideTable.PickIsLeast | P4_XV6_Stride_Scheduling/kernel/proc.c:319-337 | the nested search picks the RUNNABLE process of least stored pass, the last of equals, and none exactly if there is none with a slot |
| StrideTable.StepInv | P4_XV6_Stride_Scheduling/kernel/proc.c:154-250 | every step of fork, exit, wait, sleep, wakeup, settickets and the scheduler keeps the tables |
| StrideLaws.TicketsLaw | P4_XV6_Stride_Scheduling/kernel/proc.c:521-529 | settickets gives the caller's slot the number asked for and 16384 divided by it, and changes nothing else |
| StrideLaws.ChildSlot | P4_XV6_Stride_Scheduling/kernel/proc.c:187-201 | fork gives the child the next free slot, going round from the parent's, with the parent's tickets and stride, one stride of pass and no ticks, and changes no other slot |
| StrideLaws.ScheduleLaw | P4_XV6_Stride_Scheduling/kernel/proc.c:312-349 | the scheduler runs a process with the least pass, charges the slot that was current one stride and one tick, and changes nothing else |
| StrideLaws.AllocLaw | P4_XV6_Stride_Scheduling/kernel/proc.c:38-62 | allocproc takes the first unused entry for the next pid, and a failed fork gives it back |
| StrideLaws.ExitLaw | P4_XV6_Stride_Scheduling/kernel/proc.c:210-250 | exit leaves a zombie and gives up its own slot |
| StrideTable.BootInv | P4_XV6_Stride_Scheduling/kernel/proc.c:80-128 | userinit's tables satisfy the invariant |
| StrideKernel.Ptable.UserInit | P4_XV6_Stride_Scheduling/kernel/proc.c:80-128 | the pstat part of userinit, with its loop |
| StrideKernel.Ptable.AllocProc | P4_XV6_Stride_Scheduling/kernel/proc.c:43-53 | allocproc's scan and claim |
| StrideKernel.Ptable.AddPstat | P4_XV6_Stride_Scheduling/kernel/proc.c:187-201 | fork's scan and new slot, in place |
| StrideKernel.Ptable.Exit | P4_XV6_Stride_Scheduling/kernel/proc.c:231-247 | exit's slot and state |
| StrideKernel.Ptable.FindMin | P4_XV6_Stride_Scheduling/kernel/proc.c:315-337 | the nested loops |
| StrideKernel.Ptable.Schedule | P4_XV6_Stride_Scheduling/kernel/proc.c:312-349 | one iteration of scheduler, in place |
| StrideKernel.Ptable.SetTickets | P4_XV6_Stride_Scheduling/kernel/proc.c:521-529 | settickets, with the system call's check, in place; what it gives is in StrideLaws.TicketsLaw |
| PipeSystem.Fifo | P5_XV6_CoW_Fork/kernel/pipe.c:75-118 | in every run of readers, writers, closers and kills the bytes returned are a prefix of the bytes accepted, and at most 512 are in between; what each call returns of them is in PipeCalls.CallReturns |
| PipeCalls.CallReturns | P5_XV6_CoW_Fork/kernel/pipe.c:57-118 | main theorem: every finished call was settled by one step of its own. A reader returns -1 if it was killed and found the pipe empty with the write end open, otherwise the number of bytes it took, as many as it asked for or as there were. A writer returns its number of bytes exactly if it put all of them in, otherwise -1. A closer returns 0. All bytes accepted, and all returned, are the calls' own pieces in order |
| PipeCalls.PiecesMakeAll | P5_XV6_CoW_Fork/kernel/pipe.c:75-118 | the part about pieces, from any state |
| PipeCalls.BodyLaw | P5_XV6_CoW_Fork/kernel/pipe.c:81-114 | one turn under the lock, in bytes instead of counters: what is taken or put, and when the call is settled or goes to sleep |
| PipeCalls.ThreadStep | P5_XV6_CoW_Fork/kernel/proc.c:331-408 | nothing else changes what a call will return; only kill marks a thread killed, and it wakes it if it sleeps |
| PipeSystem.NoWakeupIsLost | P5_XV6_CoW_Fork/kernel/pipe.c:57-118 | main theorem: whenever the pipe's lock is free, a reader sleeps only on an empty pipe with the write end open and a writer only on a full one with the read end open, unless a killed writer cut readers off |
| PipeSystem.CutOffLosesWakeup | P5_XV6_CoW_Fork/kernel/pipe.c:82-86 | the exception is exact: when a killed writer fills the pipe under a reader that is asleep or on its way to sleep, the run goes on to that reader asleep on a full pipe with the lock free |
| PipeSystem.WakeupCanBeLost | P5_XV6_CoW_Fork/kernel/pipe.c:82-86 | a concrete run: one reader, then a killed writer of 513 bytes |
| PipeSystem.NotBothAsleep | P5_XV6_CoW_Fork/kernel/pipe.c:82-109 | readers and writers never sleep at the same time |
| PipeSystem.FreedWhenUnused | P5_XV6_CoW_Fork/kernel/pipe.c:57-73 | the page is freed exactly when both ends are closed and the last closer is out, and then every call has returned |
| PipeSystem.StepBase | P5_XV6_CoW_Fork/kernel/proc.c:331-377 | every step keeps the locks, the ends and the FIFO |
| PipeSystem.StepWaits | P5_XV6_CoW_Fork/kernel/proc.c:331-377 | every step but a cut-off keeps every sleeper's reason to sleep or a wakeup owed to it |
| PipeBuffer.ReadLoopTakes | P5_XV6_CoW_Fork/kernel/pipe.c:110-114 | piperead's loop returns the oldest bytes, as many as asked for or as there are |
| PipeBuffer.WriteLoopPuts | P5_XV6_CoW_Fork/kernel/pipe.c:81-91 | pipewrite's loop appends the bytes, as many as there are or as fit |
| PipeBuffer.TestsMean | P5_XV6_CoW_Fork/kernel/pipe.c:82-103 | the 32-bit tests mean empty and full even after the counters wrap around |
| PipeBuffer.PipeObj.constructor | P5_XV6_CoW_Fork/kernel/pipe.c:32-35 | pipealloc's fields |
| PipeBuffer.PipeObj.Write | P5_XV6_CoW_Fork/kernel/pipe.c:81-91 | the loop of pipewrite up to the end or a full pipe, in place |
| PipeBuffer.PipeObj.Read | P5_XV6_CoW_Fork/kernel/pipe.c:110-114 | the loop of piperead, in place |
| PipeProc.ProcTable.Wakeup1 | P5_XV6_CoW_Fork/kernel/proc.c:368-377 | wakeup1 makes exactly the sleepers on the channel RUNNABLE |
| PipeProc.ProcTable.WakeupPipe | P5_XV6_CoW_Fork/kernel/proc.c:379-385 | wakeup on a pipe's channel is the step system's wakeup |
| PipeProc.ProcTable.Sleep | P5_XV6_CoW_Fork/kernel/proc.c:352-354 | going to sleep is the step system's last step of sleep |
| FsFiles.WriteiContents | P5_XV6_CoW_Fork/kernel/fs.c:421-451 | main theorem: writei replaces or extends the contents at off by exactly the clipped source, and no other file's contents change |
| FsFiles.WriteiBytes | P5_XV6_CoW_Fork/kernel/fs.c:421-451 | writei fails, changing nothing, exactly beyond the end of the file or of 32 bits; otherwise the bytes, the size and every other inode are as described |
| FsFiles.ReadiContents | P5_XV6_CoW_Fork/kernel/fs.c:394-418 | readi fails likewise; otherwise it returns the slice clipped to the size, no file reads differently after, and without holes nothing changes |
| FsFiles.WriteThenRead | P5_XV6_CoW_Fork/kernel/fs.c:394-451 | what was written is read back |
| FsFiles.ReadiSucceeds | P5_XV6_CoW_Fork/kernel/fs.c:411-412 | without holes readi needs no fresh block |
| FsSpace.WriteiExact | P5_XV6_CoW_Fork/kernel/fs.c:421-451 | writei succeeds if and only if it refuses the request or the disk has a free block for each one that the write touches and the file lacks, and one for the indirect block if that is needed and missing; it takes just those |
| FsSpace.BmapExact | P5_XV6_CoW_Fork/kernel/fs.c:318-347 | bmap succeeds if and only if the disk has the blocks it needs, none, one or two, and takes just those |
| FsFiles.WriteiDisk | P5_XV6_CoW_Fork/kernel/fs.c:446-449 | without holes writei leaves none, and the inode on disk equal to the one in memory |
| FsFiles.EmptyDisk | P5_XV6_CoW_Fork/tools/mkfs.c:76-87 | a zeroed image with empty files satisfies the invariant |
| FsBlocks.BmapOk | P5_XV6_CoW_Fork/kernel/fs.c:319-347 | bmap keeps all pointers distinct, marked and on the disk and free blocks zero; it gives the file that block and no other, and no file reads differently |
| FsBlocks.FilePlace | P5_XV6_CoW_Fork/kernel/fs.c:318-347 | byte o of a file is byte o % 512 of the block whose number is in the inode, for the first twelve blocks, or in four bytes of the indirect block, the low one first; 0 if there is none |
| FsBlocks.GainsInv | P5_XV6_CoW_Fork/kernel/fs.c:53-76 | giving an empty pointer a fresh block keeps the invariant |
| FsBlocks.FreshBlock | P5_XV6_CoW_Fork/kernel/fs.c:61-72 | when a block of the disk is free, balloc's is a free data block, all zeros |
| FsBlocks.BallocExact | P5_XV6_CoW_Fork/kernel/fs.c:53-76 | balloc gives a block of the disk if and only if one is free, and panics if and only if every bit is set, those beyond the disk included; it is the first whose bit is clear, and that bit is all that changes |
| FsBlocks.FullDiskGoesOn | P5_XV6_CoW_Fork/kernel/fs.c:62-72 | on a full disk whose size is not a multiple of 4096 balloc gives the block after the last |
| FsBlocks.MapEntryGains | P5_XV6_CoW_Fork/kernel/fs.c:336-341 | a new entry of the indirect block changes no other pointer |
| FsBlocks.WordOfSetWord | P5_XV6_CoW_Fork/kernel/fs.c:337-340 | storing one entry of an indirect block leaves the others |
| FsTrunc.ItruncFreesExactly | P5_XV6_CoW_Fork/kernel/fs.c:352-380 | itrunc does not panic and frees exactly the inode's blocks, each once |
| FsTrunc.ItruncOk | P5_XV6_CoW_Fork/kernel/fs.c:352-380 | itrunc keeps the invariant, empties the file in memory and on disk, and leaves every other file |
| FsTrunc.DropOne | P5_XV6_CoW_Fork/kernel/fs.c:78-97 | freeing a block whose pointer has not been dropped yet never panics |
| FsKernel.FileSystem.Balloc | P5_XV6_CoW_Fork/kernel/fs.c:53-76 | balloc's nested scan over whole bitmap blocks, in place, equal to the function on values |
| FsKernel.FileSystem.Bfree | P5_XV6_CoW_Fork/kernel/fs.c:78-97 | bfree, zeroing first, in place, equal to the function on values |
| FsKernel.FileSystem.Bmap | P5_XV6_CoW_Fork/kernel/fs.c:318-347 | bmap, direct and indirect, in place, equal to the function on values |
| FsKernel.FileSystem.Itrunc | P5_XV6_CoW_Fork/kernel/fs.c:352-380 | itrunc's loops, in place, equal to the function on values |
| FsKernel.FileSystem.Readi | P5_XV6_CoW_Fork/kernel/fs.c:394-418 | readi with its loop, in place, equal to the function on values |
| FsKernel.FileSystem.Writei | P5_XV6_CoW_Fork/kernel/fs.c:421-451 | writei with its loop and the new size, in place, equal to the function on values |
| Umalloc.HeapStructure | P5_XV6_CoW_Fork/user/umalloc.c:24-90 | main theorem: after any run of mallocs and frees of live blocks the free blocks are in address order with no two touching, and free and allocated blocks tile what sbrk gave, without overlap; unless a malloc has gone astray, which takes a request of more than 2^31 - 16 and at most 2^32 - 8 bytes that no free block holds |
| Umalloc.MallocKeeps | P5_XV6_CoW_Fork/user/umalloc.c:63-90 | malloc returns a block of the units asked for, apart from all allocated ones; it fails only if no free block is big enough and sbrk has none; it goes astray if and only if no free block is big enough and the size is in that range, and then the header it writes is outside the program's memory or all memory is gone |
| UmallocLaws.MallocServes | P5_XV6_CoW_Fork/user/umalloc.c:63-90 | which block malloc returns: the end of the first that is big enough from freep on, or all of it if it fits exactly; with none it asks for 4096 units or as many as it needs, puts them on the list and serves the request from there; freep points to the block before |
| UmallocLaws.FreeReturns | P5_XV6_CoW_Fork/user/umalloc.c:24-44 | free puts the block's units and nothing else on the list, and freep points to the last block before it |
| Umalloc.BigRequestGoesAstray | P5_XV6_CoW_Fork/user/umalloc.c:52-58 | it happens: a first request of 2^31 bytes |
| Umalloc.FreeKeeps | P5_XV6_CoW_Fork/user/umalloc.c:24-44 | free of a live block keeps the heap |
| Umalloc.InsertOk | P5_XV6_CoW_Fork/user/umalloc.c:33-42 | free's insertion keeps the list ordered and joined |
| Umalloc.InsertUnits | P5_XV6_CoW_Fork/user/umalloc.c:33-42 | and adds exactly the block's units |
| Umalloc.CutUnits | P5_XV6_CoW_Fork/user/umalloc.c:75-84 | malloc's cut moves exactly the returned block's units out of the list |
| Umalloc.FirstFitNearest | P5_XV6_CoW_Fork/user/umalloc.c:74-88 | the search finds the nearest block that fits, and none only if none does |
| Umalloc.UnitsSuffice | P5_XV6_CoW_Fork/user/umalloc.c:69 | the block holds the bytes asked for if and only if they are at most 2^32 - 8 |
| UmallocLaws.UnitsLeast | P5_XV6_CoW_Fork/user/umalloc.c:69 | malloc asks for as few units as hold the bytes after a header, up to 2^32 - 8 bytes; beyond the count has wrapped around to one |
| Umalloc.SbrkArgExact | P5_XV6_CoW_Fork/user/umalloc.c:52-54 | sbrk is asked for what the request needs if and only if that is at most 2^31 - 16 bytes or the unit count has wrapped around |
| Umalloc.MoreFits | P5_XV6_CoW_Fork/user/umalloc.c:86-88 | after morecore some block fits, so the loop asks only once |
| UmallocKernel.Allocator.Find | P5_XV6_CoW_Fork/user/umalloc.c:30-32 | free's loop ends, from any freep, at the last block before the freed one |
| UmallocKernel.Allocator.Link | P5_XV6_CoW_Fork/user/umalloc.c:33-43 | free's pointer changes, with both joins, give the list of Insert |
| UmallocKernel.Allocator.Free | P5_XV6_CoW_Fork/user/umalloc.c:24-44 | free, in place |
| UmallocKernel.Allocator.Morecore | P5_XV6_CoW_Fork/user/umalloc.c:46-61 | morecore, in place, with sbrk's 32-bit argument |
| UmallocKernel.Allocator.Search | P5_XV6_CoW_Fork/user/umalloc.c:74-88 | malloc's circular search, in place |
| UmallocKernel.Allocator.TakeBlock | P5_XV6_CoW_Fork/user/umalloc.c:75-85 | exact fit or cut, in place |
| UmallocKernel.Allocator.Malloc | P5_XV6_CoW_Fork/user/umalloc.c:63-90 | malloc, in place, with or without new memory, up to the store outside memory when it goes astray |
| PsortThreads.AnyInterleavingSorts | P6_Parallel_Sort/psort.c:111-125 | main theorem: for every record count, thread count and interleaving all threads are done exactly after a number of steps fixed at the start, and then the final merges leave the stable sort of the whole input |
| Psort.FinalMergesSort | P6_Parallel_Sort/psort.c:121-125 | once every range is sorted the final merges give the sort of the whole |
| Psort.Sorter.FinalMerge | P6_Parallel_Sort/psort.c:121-125 | the final merges, in place, whatever the threads have left |
| PsortThreads.StepOnCourse | P6_Parallel_Sort/psort.c:61-67 | a step of one thread changes nothing any thread is about to leave in its range |
| PsortThreads.StepFinish | P6_Parallel_Sort/psort.c:29-59 | a thread's own step leaves what it is about to do |
| PsortThreads.StepCost | P6_Parallel_Sort/psort.c:29-59 | every step brings a thread exactly one step nearer its end |
| PsortThreads.RunCost | P6_Parallel_Sort/psort.c:116-119 | every run brings the threads together as many steps nearer their end as it has |
| Psort.SortStable | P6_Parallel_Sort/psort.c:51-59 | merge_sort's result is sorted, and has for every key the same records in the input's order |
| Psort.StableUnique | P6_Parallel_Sort/psort.c:51-59 | only one sequence has that property |
| Psort.SortPermutes | P6_Parallel_Sort/psort.c:51-59 | it is a permutation of the input |
| Psort.SortOfParts | P6_Parallel_Sort/psort.c:121-125 | merging the sorts of two parts gives the sort of the whole |
| Psort.Partition | P6_Parallel_Sort/psort.c:111-114 | the threads' ranges are adjacent and cover all records |
| Psort.Sorter.MergeRange | P6_Parallel_Sort/psort.c:29-49 | merge, in place, touching only its range of keys and temp |
| Psort.Sorter.MergeSort | P6_Parallel_Sort/psort.c:51-59 | merge_sort, in place |
| Ext2.Recover | P7_File_Systems/runscan.c:103-165 | the three loops in place write what the function on values says, for every i_size, image and content of memory outside the program's |
| Ext2.RecoveryExact | P7_File_Systems/runscan.c:103-165 | main theorem with the next row: for every i_size up to 12 + p + p * p blocks what is written is exactly the first i_size bytes of the file, whatever the looks beyond the pointers find, if and only if i_size plus a block is at most 2^32 |
| Ext2.RecoveredTooLong | P7_File_Systems/runscan.c:156 | beyond that the 32-bit length test wraps around and at least 2^32 bytes are written |
| Ext2.LargestFileFails | P7_File_Systems/runscan.c:156-158 | it happens: a file of 2^32 - 1 bytes in blocks of 4096 |
| Ext2.WriteLenExact | P7_File_Systems/runscan.c:108 | the length to write is that of the block's part of the file if and only if the sum does not wrap around |
| Ext2.WriteLenWraps | P7_File_Systems/runscan.c:108 | the last block of a file of 2^32 - 1 bytes: 4096 bytes instead of 4095 |
| Ext2.RecoveredBytes | P7_File_Systems/runscan.c:103-165 | those first i_size bytes: each is the one of the nth-block map, for every size up to 12 + p + p * p blocks |
| Ext2.RecoveredByte | P7_File_Systems/runscan.c:103-165 | in terms of the image alone: up to 2^32 less a block what is written has the file's size, and each byte is the one on the image that the inode's direct, indirect and double-indirect pointers lead to |
| Ext2.BlocksNth | P7_File_Systems/runscan.c:117-164 | the list of blocks is the nth-block map through direct, indirect and double-indirect pointers |
| Ext2.CopyBlocks | P7_File_Systems/runscan.c:107-115 | one copy loop in place, with the 32-bit length test and the read ahead |
| Ext2.CopyIndirect | P7_File_Systems/runscan.c:118-137 | one indirect block, in place |
| Ext2.CopyThrough | P7_File_Systems/runscan.c:140-164 | the nested loops, in place |
| Ext2.ReadIsData | P7_File_Systems/read_ext2.h:11 | the 32-bit block offset is right for blocks within the first 4 GiB |
| Ext2.FarBlocksAlias | P7_File_Systems/read_ext2.h:11 | a block further on is taken for the one a multiple of 4 GiB before it |
| Ext2.SmallBlocksNeverWrap | P7_File_Systems/runscan.c:108 | up to the most blocks that the pointers reach, the length test cannot wrap around with blocks of at most 2048 bytes; with blocks of 4096 or more that most is beyond 4 GiB |
| Bio.BreadIsCurrent | P5_XV6_CoW_Fork/kernel/bio.c:95-105 | after any run in which holders write back before they release, bread returns the sector's buffer with what the disk has, and no other buffer has that sector; what the disk has is in BioHistory.BreadReturnsLastWrite |
| BioHistory.BreadReturnsLastWrite | P5_XV6_CoW_Fork/kernel/bio.c:95-115 | main theorem, by the actions alone: after any run from binit in which holders write back what they change, however often buffers were recycled, bread returns what the last bwrite of the sector wrote, or what the disk had at the start if there was none |
| BioHistory.HistoryTells | P5_XV6_CoW_Fork/kernel/bio.c:61-137 | after every run from binit, tidy or not, which sector each buffer has, who holds it, what is in it, what is on the disk and the order of the releases are what the history of actions says |
| BioHistory.BgetByHistory | P5_XV6_CoW_Fork/kernel/bio.c:61-93 | bget sleeps if and only if the sector's buffer is held, and panics if and only if no buffer has the sector and all are held; otherwise it gives the sector's own buffer, or the free one released longest ago, and changes no other |
| BioHistory.WriteBackLaw | P5_XV6_CoW_Fork/kernel/bio.c:107-115 | after bwrite the disk has the buffer's data at its sector, and every other sector is as before |
| Bio.DirtyReleaseShows | P5_XV6_CoW_Fork/kernel/bio.c:119-137 | and only then: a buffer released unwritten is what the next bread returns |
| Bio.BgetRecycles | P5_XV6_CoW_Fork/kernel/bio.c:82-92 | bget recycles the buffer released longest ago of those nobody holds, and panics only if all are held |
| Bio.StepInv | P5_XV6_CoW_Fork/kernel/bio.c:61-137 | every operation keeps the list a permutation in release order and sectors unique, whatever holders write; and free valid buffers current, if a buffer is written back before its release |
| Bio.InitialInv | P5_XV6_CoW_Fork/kernel/bio.c:39-56 | binit's list satisfies the invariant |
| BioKernel.BufferCache.Binit | P5_XV6_CoW_Fork/kernel/bio.c:39-56 | binit's loop over the doubly linked list |
| BioKernel.BufferCache.FindCached | P5_XV6_CoW_Fork/kernel/bio.c:70-80 | bget's first loop |
| BioKernel.BufferCache.FindOldest | P5_XV6_CoW_Fork/kernel/bio.c:83-91 | bget's second loop, backwards |
| BioKernel.BufferCache.Bget | P5_XV6_CoW_Fork/kernel/bio.c:61-93 | bget, in place, panic included |
| BioKernel.BufferCache.Bread | P5_XV6_CoW_Fork/kernel/bio.c:95-105 | bread with the disk's contents, in place; its data is the disk's as long as holders write back |
| BioKernel.BufferCache.Bwrite | P5_XV6_CoW_Fork/kernel/bio.c:107-115 | bwrite, in place, panic included: the disk gets the buffer's data at its sector and nowhere else |
| BioKernel.BufferCache.Brelse | P5_XV6_CoW_Fork/kernel/bio.c:117-137 | brelse's pointer changes move the buffer to the front, whatever its holder left in it, panic included |
| Grep.MatchHere | P5_XV6_CoW_Fork/user/grep.c:84-96 | matchhere succeeds exactly if some split of the text satisfies the pattern's items |
| Grep.MatchStar | P5_XV6_CoW_Fork/user/grep.c:98-105 | matchstar succeeds exactly if some run of fitting characters can go before a match of the rest |
| Grep.Match | P5_XV6_CoW_Fork/user/grep.c:71-81 | match succeeds exactly if the pattern matches at the start (with a caret) or somewhere |
| Grep.MeansStar | P5_XV6_CoW_Fork/user/grep.c:98-105 | what a star adds to a pattern's meaning |
| Grep.MeansOne | P5_XV6_CoW_Fork/user/grep.c:93-94 | what a character or a dot adds |
| Grep.ParseShow | P5_XV6_CoW_Fork/user/grep.c:84-96 | reading a pattern into items and writing them out gives the pattern back, and the items are in a readable form |
| Grep.ParseBack | P5_XV6_CoW_Fork/user/grep.c:84-96 | every readable list of items is read back from the pattern that writes it |
| Grep.PlainPattern | P5_XV6_CoW_Fork/user/grep.c:84-96 | a pattern without special characters matches exactly the texts that begin with it |

## Left out

- Page-table bits, TLB reloads, segments and boot code: a PTE is a frame with its W and U flags, present if it is in the map. The page tables' own contents are the maps of the directory, not bytes of their frames.
- Kernel-mode stores into user pages, which do not fault because CR0_WP is never set; faults on kernel addresses or on pages that are not there; exec.
- More than one CPU, for copy-on-write and for the scheduler.
- The slot order of the process table in the copy-on-write model: processes are a map by pid, and wait takes any zombie child. The slots are modelled for the stride scheduler.
- CowSystem.CowEqualsEager: the runs compared have no copying fault without a free frame, which is the exact condition of VmProofs.FaultExact; fork and grow depend on free memory, and their answers are taken to agree.
- RpcProgress.CallCanReturn: that there is a way on, not that the network takes it.
- RPC: sockets, thread creation and timing. Looking a client up and claiming its request is one step, since the locks meant for it are commented out; reading done and result for an answer is one step; each thread has its own copy of the packet. Client ids are distinct and at most 100. A get or put of key 1024, which the range check lets through to one past the array, is undefined, and so is a lookup that finds no slot: the runs considered end before either.
- RpcProgram.RpcConnection.SendReqWithRetry: the packets received are a given sequence, and seq_number does not reach 2^31.
- The signed overflow of pass values and ticks: they are unbounded integers, with the number of dispatches after which the int would overflow. settickets cannot be called with less than 1, as the system call checks.
- Stride scheduler: kill is a wakeup; the memory and file parts of fork and exit; init's exit, which panics.
- Pipe: pipealloc's files and memory. Close is called once per end, when no call on that end is in progress, as the file reference counts ensure; file.c is not part of this model.
- File system: devices (T_DEV), directories, names, the log-free crash behaviour, and the inode cache with its locks. The bitmap is a sequence of bits rather than packed bytes.
- FsFiles.WriteiContents: says nothing of a writei that panics for want of a block or is given one beyond the disk; FsSpace.WriteiExact says when that is.
- Buffer cache: a get of a busy buffer has no step until it is released, which stands for sleep and retry; the disk driver fills and writes a buffer at once.
- Allocator: sbrk is given as the address it returns, beyond all memory the program has. When malloc goes astray the run ends at the store outside memory; what that store does is not modelled.
- Merge sort: reading and writing the records, and threads' steps finer than one comparison and copy.
- Ext2: finding inodes, names, directories and the output files.
- Ext2.RecoveryExact: the file's blocks are on the image and within its first 4 GiB; Ext2.FarBlocksAlias says what is read for others.
- Grep: line buffering and files. Strings are sequences without their terminator.
- The shell, the console and other drivers, printf, the user tests, smash.c and badger_fortune.c: plumbing.
